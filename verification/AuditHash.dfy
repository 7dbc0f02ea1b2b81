/** What seals a row of the audit log: `computeAuditHash` of
    `src/common/services/audit.service.ts`. SHA-256 is a parameter, an injective function with
    non-empty, '|'-free results. */
module AuditHash {
  import opened Decimals
  import opened CanonicalJson
  import opened AuditChain

  type Hash = string -> string

  ghost predicate GoodHash(sha: Hash) {
    && (forall x, y :: sha(x) == sha(y) ==> x == y)
    && (forall x :: sha(x) != "" && '|' !in sha(x))
  }

  function Nullable(s: Maybe<string>): Json {
    if s.Just? then Str(s.value) else Null
  }

  const KEYS: seq<string> :=
    ["actorUserId", "actorRole", "actorType", "action", "entityType", "entityId", "beforeJson", "afterJson", "ipAddress",
     "correlationId", "createdAt"]

  function Values(c: Content): (values: seq<Json>)
    ensures |values| == 11
  {
    [Nullable(c.actorUserId), Nullable(c.actorRole), Str(c.actorType), Str(c.action), Str(c.entityType), Str(c.entityId),
     c.before, c.after, Nullable(c.ipAddress), Nullable(c.correlationId), Str(c.createdAt)]
  }

  function Record(c: Content): Json {
    Obj(seq(11, i requires 0 <= i < 11 => Field(KEYS[i], Values(c)[i])))
  }

  /** `computeAuditHash`. */
  function AuditHash(sha: Hash, prev: Maybe<string>, c: Content): string {
    sha((if prev.Just? then prev.value else "") + ['|'] + Text(Record(c)))
  }

  lemma KeysDistinct()
    ensures forall i, j :: 0 <= i < j < 11 ==> KEYS[i] != KEYS[j]
  {
    var k := KEYS;
    assert |k[0]| == 11 && |k[1]| == 9 && |k[2]| == 9 && |k[3]| == 6 && |k[4]| == 10 && |k[5]| == 8;
    assert |k[6]| == 10 && |k[7]| == 9 && |k[8]| == 9 && |k[9]| == 13 && |k[10]| == 9;
    assert k[1][5] == 'R' && k[2][5] == 'T' && k[7][5] == 'J' && k[8][5] == 'r' && k[10][5] == 'e';
    assert k[4][0] == 'e' && k[6][0] == 'b';
  }

  lemma RecordValid(c: Content)
    requires ValidContent(c)
    ensures Valid(Record(c))
  {
    KeysDistinct();
    forall i | 0 <= i < 11 ensures Valid(Values(c)[i]) {}
  }

  /** The value under a key is found again in the other record. */
  lemma FieldSame(c: Content, d: Content, i: nat)
    requires Same(Record(c), Record(d)) && i < 11
    ensures Same(Values(c)[i], Values(d)[i])
  {
    var f, g := Record(c).fields, Record(d).fields;
    assert SameIn(f[i], g);
    var k :| 0 <= k < |g| && f[i].key == g[k].key && Same(f[i].value, g[k].value);
    KeysDistinct();
    assert KEYS[i] == KEYS[k];
  }

  /** The columns as the hash sees them. */
  function Stripped(c: Content): Content {
    c.(before := Strip(c.before), after := Strip(c.after))
  }

  lemma NoKeyIsProto()
    ensures forall i :: 0 <= i < 11 ==> KEYS[i] != PROTO
  {
    forall i | 0 <= i < 11 ensures KEYS[i] != PROTO { assert KEYS[i][0] != PROTO[0]; }
  }

  lemma ValuesStripped(c: Content, i: nat)
    requires i < 11
    ensures Strip(Values(c)[i]) == Values(Stripped(c))[i]
  {
  }

  lemma RecordStripped(c: Content)
    ensures Strip(Record(c)) == Record(Stripped(c))
  {
    NoKeyIsProto();
    AllKept(Record(c), 0);
    var each := StripEach(Record(c).fields);
    assert each[0..] == each;
    forall i | 0 <= i < 11 ensures each[i] == Record(Stripped(c)).fields[i] { ValuesStripped(c, i); }
    assert each == Record(Stripped(c)).fields;
  }

  lemma NullableSame(a: Maybe<string>, b: Maybe<string>)
    requires Same(Nullable(a), Nullable(b))
    ensures a == b
  {
  }

  /** Records that are the same agree on every column. */
  lemma SameRecord(c: Content, d: Content)
    requires Same(Record(c), Record(d))
    ensures c == d.(before := c.before, after := c.after) && Same(c.before, d.before) && Same(c.after, d.after)
  {
    FieldSame(c, d, 0);
    FieldSame(c, d, 1);
    FieldSame(c, d, 2);
    FieldSame(c, d, 3);
    FieldSame(c, d, 4);
    FieldSame(c, d, 5);
    FieldSame(c, d, 6);
    FieldSame(c, d, 7);
    FieldSame(c, d, 8);
    FieldSame(c, d, 9);
    FieldSame(c, d, 10);
    NullableSame(c.actorUserId, d.actorUserId);
    NullableSame(c.actorRole, d.actorRole);
    NullableSame(c.ipAddress, d.ipAddress);
    NullableSame(c.correlationId, d.correlationId);
  }

  lemma {:induction false} BarSplits(p: string, q: string, r: string, s: string)
    requires '|' !in p && '|' !in q && p + ['|'] + r == q + ['|'] + s
    ensures p == q && r == s
    decreases |p|
  {
    var x, y := p + ['|'] + r, q + ['|'] + s;
    assert x[0] == (if p == [] then '|' else p[0]) && y[0] == (if q == [] then '|' else q[0]);
    if p == [] {
      assert r == x[1..] && s == y[1..];
    } else {
      assert x[1..] == p[1..] + ['|'] + r && y[1..] == q[1..] + ['|'] + s;
      BarSplits(p[1..], q[1..], r, s);
      assert p == [p[0]] + p[1..] && q == [q[0]] + q[1..];
    }
  }

  /** A previous hash as the program stores it: one that the hash function gave. */
  ghost predicate HashOrNone(sha: Hash, prev: Maybe<string>) {
    prev.Just? ==> exists x :: sha(x) == prev.value
  }

  /** The hash of a row determines its content and the hash before it. */
  lemma HashDetermines(sha: Hash, p: Maybe<string>, c: Content, q: Maybe<string>, d: Content)
    requires GoodHash(sha) && HashOrNone(sha, p) && HashOrNone(sha, q) && ValidContent(c) && ValidContent(d)
    requires AuditHash(sha, p, c) == AuditHash(sha, q, d)
    ensures p == q && SameContent(c, d)
  {
    var x, y := if p.Just? then p.value else "", if q.Just? then q.value else "";
    BarSplits(x, y, Text(Record(c)), Text(Record(d)));
    RecordValid(c);
    RecordValid(d);
    SameTextIffSame(Record(c), Record(d));
    RecordStripped(c);
    RecordStripped(d);
    SameRecord(Stripped(c), Stripped(d));
  }

  /** Rows that differ only in a JSON member called "__proto__" have the same hash: the seal does
      not bind it. */
  lemma ProtoIsNotSealed(sha: Hash, prev: Maybe<string>, c: Content, value: Json)
    requires ValidContent(c) && Valid(value)
    ensures var d, e := c.(before := Obj([Field(PROTO, value)])), c.(before := Obj([]));
            ValidContent(d) && ValidContent(e) && !Same(d.before, e.before) && AuditHash(sha, prev, d) == AuditHash(sha, prev, e)
  {
    var d, e := c.(before := Obj([Field(PROTO, value)])), c.(before := Obj([]));
    ProtoIsLost(value);
    ProtoStripped(value);
    SameHash(sha, prev, d, e);
  }

  lemma SameHash(sha: Hash, prev: Maybe<string>, c: Content, d: Content)
    requires Stripped(c) == Stripped(d)
    ensures AuditHash(sha, prev, c) == AuditHash(sha, prev, d)
  {
    RecordStripped(c);
    RecordStripped(d);
    SortStripped(Record(c));
    SortStripped(Record(d));
  }

  /** The seal of the program's audit log. */
  function Sealing(sha: Hash): Seal {
    (prev, c) => AuditHash(sha, prev, c)
  }

  lemma SealsAgree(sha: Hash, seal: Seal, p: Maybe<string>, c: Content, q: Maybe<string>, d: Content)
    requires GoodHash(sha) && seal == Sealing(sha) && SealedAlike(seal, p, c, q, d)
    ensures p == q && SameContent(c, d)
  {
    ChainedIsHash(sha, p);
    ChainedIsHash(sha, q);
    HashDetermines(sha, p, c, q, d);
  }

  /** With an injective hash, a seal binds every hashed column and the hash before it. */
  lemma SealingBinds(sha: Hash, seal: Seal)
    requires GoodHash(sha) && seal == Sealing(sha)
    ensures Binds(seal)
  {
    forall p, c, q, d | SealedAlike(seal, p, c, q, d) ensures p == q && SameContent(c, d) {
      SealsAgree(sha, seal, p, c, q, d);
    }
  }

  lemma ChainedIsHash(sha: Hash, p: Maybe<string>)
    requires Chained(Sealing(sha), p)
    ensures HashOrNone(sha, p)
  {
    if p.Just? {
      var a, c :| Sealing(sha)(a, c) == p.value;
      assert sha((if a.Just? then a.value else "") + ['|'] + Text(Record(c))) == p.value;
    }
  }

  /** Two audit logs that both verify and end on the same hash agree on every hashed column of
      every row: whoever keeps the last hash can tell any change, insertion or removal before it. */
  lemma SameLastHashSameHistory(sha: Hash, xs: seq<Row>, ys: seq<Row>)
    requires GoodHash(sha) && Verified(Sealing(sha), xs) && Verified(Sealing(sha), ys) && ValidRows(xs) && ValidRows(ys)
    requires LastHash(xs) == LastHash(ys)
    ensures |xs| == |ys| && forall i :: 0 <= i < |xs| ==> AgreeRow(xs[i], ys[i])
  {
    SealingBinds(sha, Sealing(sha));
    SameLastHashSameLog(Sealing(sha), xs, ys);
  }
}
