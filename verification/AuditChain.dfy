/** The hash-chained audit log and its paged verifier (`src/common/services/audit.service.ts`).
    What a row is sealed with is a parameter here; `AuditHash` says what it is. */
module AuditChain {
  import opened Decimals
  import opened CanonicalJson

  /** The hashed columns of a row. `createdAt` is the ISO text of the timestamp. */
  datatype Content = Content(actorUserId: Maybe<string>, actorRole: Maybe<string>, actorType: string, action: string,
                             entityType: string, entityId: string, before: Json, after: Json,
                             ipAddress: Maybe<string>, correlationId: Maybe<string>, createdAt: string)

  datatype Row = Row(seqNo: int, content: Content, prev: Maybe<string>, hash: string)

  /** The hash of a row, from the hash before it and its content. */
  type Seal = (Maybe<string>, Content) -> string

  predicate ValidContent(c: Content) {
    Valid(c.before) && Valid(c.after)
  }

  /** Every hashed column agrees; the two JSON columns up to the order of their keys and to
      members called "__proto__", which `canonicalJson` leaves out. */
  predicate SameContent(c: Content, d: Content) {
    && c == d.(before := c.before, after := c.after)
    && Same(Strip(c.before), Strip(d.before)) && Same(Strip(c.after), Strip(d.after))
  }

  // -------------------------------------------------------------------- scan

  datatype Verdict = Verdict(ok: bool, checked: nat, brokenAt: Maybe<int>)

  predicate RowOk(seal: Seal, expected: Maybe<string>, r: Row) {
    r.prev == expected && seal(r.prev, r.content) == r.hash
  }

  /** The rows one after the other, stopping at the first broken one. */
  function Scan(seal: Seal, rows: seq<Row>, expected: Maybe<string>, checked: nat): Verdict {
    if rows == [] then Verdict(true, checked, Nothing)
    else if !RowOk(seal, expected, rows[0]) then Verdict(false, checked, Just(rows[0].seqNo))
    else Scan(seal, rows[1..], Just(rows[0].hash), checked + 1)
  }

  function LastHash(rows: seq<Row>): Maybe<string> {
    if rows == [] then Nothing else Just(rows[|rows| - 1].hash)
  }

  predicate InOrder(rows: seq<Row>, i: nat, j: nat)
    requires i < |rows| && j < |rows|
  {
    rows[i].seqNo >= 1 && (i < j ==> rows[i].seqNo < rows[j].seqNo)
  }

  /** Rows come in ascending sequence order, from 1, perhaps with gaps. */
  predicate InSequence(rows: seq<Row>) {
    forall i, j :: 0 <= i < |rows| && 0 <= j < |rows| ==> InOrder(rows, i, j)
  }

  /** How many rows come before a sequence number. */
  function Below(rows: seq<Row>, from: int): nat {
    if rows == [] || rows[0].seqNo >= from then 0 else 1 + Below(rows[1..], from)
  }

  lemma {:induction false} BelowBounded(rows: seq<Row>, from: int)
    ensures Below(rows, from) <= |rows|
  {
    if rows != [] { BelowBounded(rows[1..], from); }
  }

  /** Row i is before `from` exactly when it is one of those counted. */
  lemma {:induction false} BelowAt(rows: seq<Row>, from: int, i: nat)
    requires InSequence(rows) && i < |rows|
    ensures i < Below(rows, from) <==> rows[i].seqNo < from
  {
    assert InOrder(rows, 0, i);
    if rows[0].seqNo < from && i > 0 {
      forall a, b | 0 <= a < |rows[1..]| && 0 <= b < |rows[1..]| ensures InOrder(rows[1..], a, b) {
        assert InOrder(rows, a + 1, b + 1);
      }
      BelowAt(rows[1..], from, i - 1);
    }
  }

  /** `verifyChain` as one unpaged scan. */
  function Verify(seal: Seal, rows: seq<Row>, from: int): Verdict
  {
    BelowBounded(rows, from);
    var n := Below(rows, from);
    Scan(seal, rows[n..], LastHash(rows[..n]), 0)
  }

  predicate Verified(seal: Seal, rows: seq<Row>) {
    Scan(seal, rows, Nothing, 0).ok
  }

  // ------------------------------------------------------------- append keeps

  function Sealed(seal: Seal, rows: seq<Row>, seqNo: int, c: Content): Row {
    Row(seqNo, c, LastHash(rows), seal(LastHash(rows), c))
  }

  /** A scan in two parts. */
  lemma {:induction false} ScanSplits(seal: Seal, xs: seq<Row>, ys: seq<Row>, expected: Maybe<string>, checked: nat)
    ensures var first := Scan(seal, xs, expected, checked);
            && (first.ok ==> first == Verdict(true, checked + |xs|, Nothing))
            && Scan(seal, xs + ys, expected, checked) ==
                 if first.ok then Scan(seal, ys, if xs == [] then expected else LastHash(xs), checked + |xs|) else first
    decreases |xs|
  {
    if xs == [] {
      assert xs + ys == ys;
    } else {
      assert (xs + ys)[1..] == xs[1..] + ys;
      ScanSplits(seal, xs[1..], ys, Just(xs[0].hash), checked + 1);
    }
  }

  /** After an append the log verifies exactly when it did before. */
  lemma AppendKeepsVerified(seal: Seal, rows: seq<Row>, seqNo: int, c: Content)
    ensures Verified(seal, rows + [Sealed(seal, rows, seqNo, c)]) <==> Verified(seal, rows)
  {
    var row := Sealed(seal, rows, seqNo, c);
    ScanSplits(seal, rows, [row], Nothing, 0);
    assert Scan(seal, [row], LastHash(rows), |rows|) == Scan(seal, [row][1..], Just(row.hash), |rows| + 1);
  }

  /** A log verifies from any row on exactly when the rows before do not matter to it: a whole
      verification is a verification up to a row and one from that row on. */
  lemma VerifiedInTwoParts(seal: Seal, rows: seq<Row>, from: int)
    ensures Below(rows, from) <= |rows|
    ensures Verified(seal, rows) <==> Verified(seal, rows[..Below(rows, from)]) && Verify(seal, rows, from).ok
  {
    BelowBounded(rows, from);
    var n := Below(rows, from);
    ScanSplits(seal, rows[..n], rows[n..], Nothing, 0);
    assert rows[..n] + rows[n..] == rows;
    CountAside(seal, rows[n..], LastHash(rows[..n]), 0, n);
  }

  /** The number of rows already checked only shifts the count. */
  lemma {:induction false} CountAside(seal: Seal, rows: seq<Row>, expected: Maybe<string>, a: nat, b: nat)
    ensures Scan(seal, rows, expected, a).ok == Scan(seal, rows, expected, b).ok
    ensures Scan(seal, rows, expected, a).brokenAt == Scan(seal, rows, expected, b).brokenAt
    decreases |rows|
  {
    if rows != [] { CountAside(seal, rows[1..], Just(rows[0].hash), a + 1, b + 1); }
  }

  // ------------------------------------------------------------ tamper evidence

  /** A previous hash that some row was sealed with, or none. */
  ghost predicate Chained(seal: Seal, prev: Maybe<string>) {
    prev.Just? ==> exists p, c :: seal(p, c) == prev.value
  }

  /** The same seal on two rows. */
  ghost predicate SealedAlike(seal: Seal, p: Maybe<string>, c: Content, q: Maybe<string>, d: Content) {
    Chained(seal, p) && Chained(seal, q) && ValidContent(c) && ValidContent(d) && seal(p, c) == seal(q, d)
  }

  /** A seal determines what it was put on. */
  ghost predicate Binds(seal: Seal) {
    forall p, c, q, d :: SealedAlike(seal, p, c, q, d) ==> p == q && SameContent(c, d)
  }

  predicate ValidRows(rows: seq<Row>) {
    forall i :: 0 <= i < |rows| ==> ValidContent(rows[i].content)
  }

  /** A verified log without its last row is verified; its last row is sealed on it. */
  lemma VerifiedPrefix(seal: Seal, rows: seq<Row>)
    requires Verified(seal, rows) && rows != []
    ensures var n := |rows| - 1;
            Verified(seal, rows[..n]) && rows[n] == Sealed(seal, rows[..n], rows[n].seqNo, rows[n].content)
  {
    var n := |rows| - 1;
    ScanSplits(seal, rows[..n], [rows[n]], Nothing, 0);
    assert rows[..n] + [rows[n]] == rows;
  }

  lemma SealedPrev(seal: Seal, rows: seq<Row>)
    requires Verified(seal, rows)
    ensures Chained(seal, LastHash(rows))
  {
    if rows != [] {
      VerifiedPrefix(seal, rows);
      var n := |rows| - 1;
      assert seal(rows[n].prev, rows[n].content) == rows[n].hash;
    }
  }

  /** Two rows agree on everything that is hashed, and on the hashes. */
  predicate AgreeRow(r: Row, s: Row) {
    r.hash == s.hash && r.prev == s.prev && SameContent(r.content, s.content)
  }

  lemma LastRowsAgree(seal: Seal, xs: seq<Row>, ys: seq<Row>)
    requires Binds(seal) && Verified(seal, xs) && Verified(seal, ys) && ValidRows(xs) && ValidRows(ys)
    requires xs != [] && ys != [] && LastHash(xs) == LastHash(ys)
    ensures var m, n := |xs| - 1, |ys| - 1;
            && Verified(seal, xs[..m]) && Verified(seal, ys[..n]) && LastHash(xs[..m]) == LastHash(ys[..n])
            && AgreeRow(xs[m], ys[n])
  {
    var m, n := |xs| - 1, |ys| - 1;
    VerifiedPrefix(seal, xs);
    VerifiedPrefix(seal, ys);
    SealedPrev(seal, xs[..m]);
    SealedPrev(seal, ys[..n]);
    assert ValidContent(xs[m].content) && ValidContent(ys[n].content);
    assert SealedAlike(seal, xs[m].prev, xs[m].content, ys[n].prev, ys[n].content);
  }

  /** Two logs that both verify and end on the same hash agree row by row: whoever keeps the
      last hash can tell any change, insertion or removal anywhere before it. */
  lemma {:induction false} SameLastHashSameLog(seal: Seal, xs: seq<Row>, ys: seq<Row>)
    requires Binds(seal) && Verified(seal, xs) && Verified(seal, ys) && ValidRows(xs) && ValidRows(ys)
    requires LastHash(xs) == LastHash(ys)
    ensures |xs| == |ys| && forall i :: 0 <= i < |xs| ==> AgreeRow(xs[i], ys[i])
    decreases |xs|
  {
    if xs != [] {
      var m, n := |xs| - 1, |ys| - 1;
      LastRowsAgree(seal, xs, ys);
      SameLastHashSameLog(seal, xs[..m], ys[..n]);
      forall i | 0 <= i < |xs| ensures AgreeRow(xs[i], ys[i]) {
        if i < m { assert AgreeRow(xs[..m][i], ys[..n][i]); }
      }
    }
  }

  lemma AppendInSequence(rows: seq<Row>, row: Row)
    requires InSequence(rows) && row.seqNo >= 1 && (rows != [] ==> rows[|rows| - 1].seqNo < row.seqNo)
    ensures InSequence(rows + [row])
  {
    var all := rows + [row];
    forall i, j | 0 <= i < |all| && 0 <= j < |all| ensures InOrder(all, i, j) {
      if i < |rows| {
        assert InOrder(rows, i, |rows| - 1);
        if j < |rows| { assert InOrder(rows, i, j); }
      }
    }
  }

  // ------------------------------------------------------------------ the log

  const PAGE := 500

  class AuditLog {
    const seal: Seal
    var rows: seq<Row>
    /** The next value of the sequence behind `seq`; a rolled-back append leaves a gap. */
    var nextSeq: int

    ghost predicate Valid()
      reads this
    {
      InSequence(rows) && nextSeq >= 1 && (rows != [] ==> rows[|rows| - 1].seqNo < nextSeq)
    }

    constructor (seal: Seal)
      ensures Valid() && rows == [] && this.seal == seal
    {
      this.seal := seal;
      rows, nextSeq := [], 1;
    }

    /** `append`, under its advisory lock. */
    method Append(c: Content) returns (row: Row)
      requires Valid()
      modifies this
      ensures Valid() && nextSeq == old(nextSeq) + 1
      ensures row == Sealed(seal, old(rows), old(nextSeq), c) && rows == old(rows) + [row]
      ensures Verified(seal, rows) <==> Verified(seal, old(rows))
    {
      var prev := if rows == [] then Nothing else Just(rows[|rows| - 1].hash);
      row := Row(nextSeq, c, prev, seal(prev, c));
      AppendKeepsVerified(seal, rows, nextSeq, c);
      AppendInSequence(rows, row);
      nextSeq := nextSeq + 1;
      rows := rows + [row];
    }

    /** One page: at most PAGE rows from `cursor` on, in sequence order. */
    method FetchPage(cursor: int) returns (page: seq<Row>)
      requires Valid()
      ensures Below(rows, cursor) <= |rows| && page == PageAt(rows, Below(rows, cursor))
    {
      BelowBounded(rows, cursor);
      var first := 0;
      while first < |rows| && rows[first].seqNo < cursor
        invariant first <= Below(rows, cursor)
      {
        BelowAt(rows, cursor, first);
        first := first + 1;
      }
      if first < |rows| { BelowAt(rows, cursor, first); }
      page := rows[first..if first + PAGE < |rows| then first + PAGE else |rows|];
    }

    /** The rows of one page, stopping at the first broken one. */
    method CheckPage(page: seq<Row>, before: Maybe<string>, sofar: nat)
      returns (broken: Maybe<int>, expected: Maybe<string>, checked: nat)
      ensures Scan(seal, page, before, sofar) == Verdict(broken.Nothing?, checked, broken)
      ensures broken.Nothing? ==> expected == (if page == [] then before else LastHash(page)) && checked == sofar + |page|
    {
      expected, checked := before, sofar;
      for i := 0 to |page|
        invariant expected == (if i == 0 then before else Just(page[i - 1].hash)) && checked == sofar + i
        invariant Scan(seal, page, before, sofar) == Scan(seal, page[i..], expected, checked)
      {
        var r := page[i];
        assert page[i..][0] == r && page[i..][1..] == page[i + 1..];
        if r.prev != expected || seal(r.prev, r.content) != r.hash {
          return Just(r.seqNo), expected, checked;
        }
        expected := Just(r.hash);
        checked := checked + 1;
      }
      broken := Nothing;
    }

    /** Fetches and checks one page: the verdict when the scan ends there, or where to go on. */
    method VerifyPage(cursor: int, expected: Maybe<string>, checked: nat, ghost done: nat)
      returns (verdict: Maybe<Verdict>, nextCursor: int, nextExpected: Maybe<string>, nextChecked: nat, ghost next: nat)
      requires Valid() && StandsAt(rows, cursor, done)
      ensures verdict.Just? ==> verdict.value == ScanFrom(seal, rows, done, expected, checked)
      ensures verdict.Nothing? ==>
        && next > done && StandsAt(rows, nextCursor, next)
        && ScanFrom(seal, rows, done, expected, checked) == ScanFrom(seal, rows, next, nextExpected, nextChecked)
    {
      nextCursor, nextExpected, nextChecked, next := cursor, expected, checked, done;
      var page := FetchPage(cursor);
      if page == [] {
        assert rows[done..] == [];
        return Just(Verdict(true, checked, Nothing)), nextCursor, nextExpected, nextChecked, next;
      }
      PageBreaks(seal, rows, done, expected, checked);
      var broken, last, total := CheckPage(page, expected, checked);
      if broken.Just? {
        return Just(Verdict(false, total, broken)), nextCursor, nextExpected, nextChecked, next;
      }
      PageDone(seal, rows, done, expected, checked, total);
      if |page| < PAGE {
        return Just(Verdict(true, total, Nothing)), nextCursor, nextExpected, nextChecked, next;
      }
      return Nothing, page[|page| - 1].seqNo + 1, last, total, done + |page|;
    }

    /** `verifyChain`: page after page, from the first row or from `fromSeq`; the verdict is
        that of one unpaged scan. */
    method VerifyChain(fromSeq: Maybe<int>) returns (verdict: Verdict)
      requires Valid()
      ensures verdict == Verify(seal, rows, if fromSeq.Just? then fromSeq.value else 1)
    {
      var start := if fromSeq.Just? then fromSeq.value else 1;
      var expected := Nothing;
      if start > 1 {
        expected := HashBefore(start);
      }
      var cursor := start;
      var checked := 0;
      BelowBounded(rows, start);
      assert rows != [] ==> InOrder(rows, 0, 0);
      ghost var done := Below(rows, start);
      while true
        invariant StandsAt(rows, cursor, done)
        invariant Verify(seal, rows, start) == ScanFrom(seal, rows, done, expected, checked)
        decreases |rows| - done
      {
        var result;
        result, cursor, expected, checked, done := VerifyPage(cursor, expected, checked, done);
        if result.Just? {
          return result.value;
        }
      }
    }

    /** The hash of the last row before a sequence number. */
    method HashBefore(start: int) returns (hash: Maybe<string>)
      requires Valid()
      ensures Below(rows, start) <= |rows| && hash == LastHash(rows[..Below(rows, start)])
    {
      BelowBounded(rows, start);
      hash := Nothing;
      for i := 0 to |rows|
        invariant hash == LastHash(rows[..if i < Below(rows, start) then i else Below(rows, start)])
      {
        BelowAt(rows, start, i);
        if rows[i].seqNo < start {
          hash := Just(rows[i].hash);
        }
      }
    }
  }

  /** The page that starts at a row. */
  function PageAt(rows: seq<Row>, first: nat): seq<Row>
    requires first <= |rows|
  {
    rows[first..if first + PAGE < |rows| then first + PAGE else |rows|]
  }

  /** A scan is the scan of a page, then of the rest. */
  lemma PageSplits(seal: Seal, rows: seq<Row>, first: nat, expected: Maybe<string>, checked: nat)
    requires first <= |rows|
    ensures var page := PageAt(rows, first);
            var head := Scan(seal, page, expected, checked);
            Scan(seal, rows[first..], expected, checked) ==
              if head.ok then Scan(seal, rows[first + |page|..], if page == [] then expected else LastHash(page), checked + |page|)
              else head
  {
    var page := PageAt(rows, first);
    ScanSplits(seal, page, rows[first + |page|..], expected, checked);
    assert page + rows[first + |page|..] == rows[first..];
  }

  /** The cursor stands before row d. */
  predicate StandsAt(rows: seq<Row>, cursor: int, d: nat) {
    d <= |rows| && d == Below(rows, cursor)
  }

  function ScanFrom(seal: Seal, rows: seq<Row>, first: nat, expected: Maybe<string>, checked: nat): Verdict
    requires first <= |rows|
  {
    Scan(seal, rows[first..], expected, checked)
  }

  /** A broken page breaks the scan. */
  lemma PageBreaks(seal: Seal, rows: seq<Row>, first: nat, expected: Maybe<string>, checked: nat)
    requires first <= |rows|
    ensures var head := Scan(seal, PageAt(rows, first), expected, checked);
            !head.ok ==> ScanFrom(seal, rows, first, expected, checked) == head
  {
    PageSplits(seal, rows, first, expected, checked);
  }

  /** After a sound page: what is left to scan, and where the cursor then stands. */
  lemma PageDone(seal: Seal, rows: seq<Row>, first: nat, expected: Maybe<string>, checked: nat, total: nat)
    requires InSequence(rows) && first < |rows|
    requires Scan(seal, PageAt(rows, first), expected, checked) == Verdict(true, total, Nothing)
    ensures var page := PageAt(rows, first);
            var next := first + |page|;
            && page != [] && StandsAt(rows, page[|page| - 1].seqNo + 1, next)
            && ScanFrom(seal, rows, first, expected, checked) == ScanFrom(seal, rows, next, LastHash(page), total)
            && (|page| < PAGE ==> ScanFrom(seal, rows, first, expected, checked) == Verdict(true, total, Nothing))
  {
    var page := PageAt(rows, first);
    PageSplits(seal, rows, first, expected, checked);
    ScanSplits(seal, page, [], expected, checked);
    assert page[|page| - 1] == rows[first + |page| - 1];
    CursorAfter(rows, first + |page|);
    if |page| < PAGE { assert rows[first + |page|..] == []; }
  }

  /** The rows before the cursor that follows the d-th row are the first d. */
  lemma CursorAfter(rows: seq<Row>, d: nat)
    requires InSequence(rows) && 0 < d <= |rows|
    ensures Below(rows, rows[d - 1].seqNo + 1) == d
  {
    var cursor := rows[d - 1].seqNo + 1;
    BelowBounded(rows, cursor);
    BelowAt(rows, cursor, d - 1);
    if d < |rows| {
      assert InOrder(rows, d - 1, d);
      BelowAt(rows, cursor, d);
    }
  }
}
