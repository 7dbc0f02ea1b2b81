/** `canonicalJson` (`src/common/services/audit.service.ts`): JSON text with object keys sorted
    at every depth, so that a value reads the same however its keys were stored. An object is
    rebuilt by assignments `acc[key] = ...` on `{}`, which lose a member called "__proto__". */
module CanonicalJson {
  datatype Json = Null | Bool(b: bool) | Num(text: string) | Str(s: string) | Arr(items: seq<Json>) | Obj(fields: seq<Field>)
  datatype Field = Field(key: string, value: Json)

  predicate IsNumChar(c: char) {
    '0' <= c <= '9' || c in {'+', '-', '.', 'e', 'E'}
  }

  predicate AllNumChars(s: string) {
    forall i :: 0 <= i < |s| ==> IsNumChar(s[i])
  }

  predicate DistinctKeys(fields: seq<Field>) {
    forall i, j :: 0 <= i < j < |fields| ==> fields[i].key != fields[j].key
  }

  /** A number is the text it prints as; an object has each key once. */
  predicate Valid(j: Json) {
    match j
    case Num(text) => text != "" && AllNumChars(text)
    case Arr(items) => forall i :: 0 <= i < |items| ==> Valid(items[i])
    case Obj(fields) => DistinctKeys(fields) && forall i :: 0 <= i < |fields| ==> Valid(fields[i].value)
    case _ => true
  }

  // ------------------------------------------------------------- key order

  predicate Lexical(a: string, b: string) {
    b != [] && (a == [] || a[0] < b[0] || (a[0] == b[0] && Lexical(a[1..], b[1..])))
  }

  lemma {:induction false} LexicalTotal(a: string, b: string)
    ensures a == b || Lexical(a, b) || Lexical(b, a)
    ensures !(Lexical(a, b) && Lexical(b, a)) && !Lexical(a, a)
    decreases |a|
  {
    if a != [] {
      LexicalTotal(a[1..], a[1..]);
      if b != [] {
        LexicalTotal(a[1..], b[1..]);
        assert a == [a[0]] + a[1..] && b == [b[0]] + b[1..];
      }
    }
  }

  lemma {:induction false} LexicalTransitive(a: string, b: string, c: string)
    requires Lexical(a, b) && Lexical(b, c)
    ensures Lexical(a, c)
    decreases |a|
  {
    if a != [] && a[0] == b[0] == c[0] { LexicalTransitive(a[1..], b[1..], c[1..]); }
  }

  /** An array index, below 2^32 - 1, as it prints. */
  predicate IsIndex(k: string) {
    && k != "" && (forall i :: 0 <= i < |k| ==> '0' <= k[i] <= '9') && (k[0] != '0' || |k| == 1)
    && (|k| < 10 || (|k| == 10 && !Lexical("4294967294", k)))
  }

  /** The order in which an object whose keys were assigned in sorted order lists them: array
      indices first, by value, then the other keys as sorted. */
  predicate Before(a: string, b: string) {
    if IsIndex(a) && IsIndex(b) then |a| < |b| || (|a| == |b| && Lexical(a, b))
    else IsIndex(a) || (!IsIndex(b) && Lexical(a, b))
  }

  lemma BeforeTotal(a: string, b: string)
    ensures a == b || Before(a, b) || Before(b, a)
    ensures !(Before(a, b) && Before(b, a)) && !Before(a, a)
  {
    LexicalTotal(a, b);
    LexicalTotal(a, a);
  }

  lemma BeforeTransitive(a: string, b: string, c: string)
    requires Before(a, b) && Before(b, c)
    ensures Before(a, c)
  {
    if Lexical(a, b) && Lexical(b, c) { LexicalTransitive(a, b, c); }
  }

  function Put(f: Field, fields: seq<Field>): seq<Field> {
    if fields == [] then [f]
    else if Before(f.key, fields[0].key) then [f] + fields
    else [fields[0]] + Put(f, fields[1..])
  }

  const PROTO: string := "__proto__"

  /** `acc[key] = value`: the key "__proto__" meets the prototype setter and leaves no member. */
  function Assign(f: Field, fields: seq<Field>): seq<Field> {
    if f.key == PROTO then fields else Put(f, fields)
  }

  function Arrange(fields: seq<Field>): seq<Field> {
    if fields == [] then [] else Assign(fields[0], Arrange(fields[1..]))
  }

  /** `sortKeys`. */
  function SortKeys(j: Json): Json {
    match j
    case Arr(items) => Arr(seq(|items|, i requires 0 <= i < |items| => SortKeys(items[i])))
    case Obj(fields) =>
      Obj(Arrange(seq(|fields|, i requires 0 <= i < |fields| => Field(fields[i].key, SortKeys(fields[i].value)))))
    case _ => j
  }

  predicate Sorted(fields: seq<Field>) {
    forall i, j :: 0 <= i < j < |fields| ==> Before(fields[i].key, fields[j].key)
  }

  lemma {:induction false} PutSorted(f: Field, fields: seq<Field>)
    requires Sorted(fields) && forall i :: 0 <= i < |fields| ==> fields[i].key != f.key
    ensures Sorted(Put(f, fields))
    ensures forall g :: g in Put(f, fields) <==> g == f || g in fields
  {
    if fields != [] {
      if Before(f.key, fields[0].key) {
        forall j | 0 < j < |fields| ensures Before(f.key, fields[j].key) {
          BeforeTransitive(f.key, fields[0].key, fields[j].key);
        }
      } else {
        BeforeTotal(f.key, fields[0].key);
        PutSorted(f, fields[1..]);
        var rest := Put(f, fields[1..]);
        forall j | 0 <= j < |rest| ensures Before(fields[0].key, rest[j].key) {
          assert rest[j] in rest;
          if rest[j] != f {
            var k :| 0 <= k < |fields[1..]| && fields[1..][k] == rest[j];
            assert fields[k + 1] == rest[j];
          }
        }
        assert forall g :: g in fields <==> g == fields[0] || g in fields[1..];
      }
    }
  }

  lemma {:induction false} ArrangeSorted(fields: seq<Field>)
    requires DistinctKeys(fields)
    ensures Sorted(Arrange(fields)) && forall g :: g in Arrange(fields) <==> g in fields && g.key != PROTO
  {
    if fields != [] {
      ArrangeSorted(fields[1..]);
      var rest := Arrange(fields[1..]);
      forall i | 0 <= i < |rest| ensures rest[i].key != fields[0].key {
        assert rest[i] in fields[1..];
        var k :| 0 <= k < |fields[1..]| && fields[1..][k] == rest[i];
        assert fields[k + 1] == rest[i];
      }
      if fields[0].key != PROTO { PutSorted(fields[0], rest); }
      assert forall g :: g in fields <==> g == fields[0] || g in fields[1..];
    }
  }

  lemma HeadsEqual(a: seq<Field>, b: seq<Field>)
    requires Sorted(a) && Sorted(b) && a != [] && b != [] && forall g :: g in a <==> g in b
    ensures a[0] == b[0]
  {
    assert a[0] in a && b[0] in b;
    var i :| 0 <= i < |b| && b[i] == a[0];
    var k :| 0 <= k < |a| && a[k] == b[0];
    assert i > 0 ==> Before(b[0].key, b[i].key);
    assert k > 0 ==> Before(a[0].key, a[k].key);
    BeforeTotal(a[0].key, b[0].key);
  }

  /** Sorted fields are determined by which fields they are. */
  lemma {:induction false} SortedUnique(a: seq<Field>, b: seq<Field>)
    requires Sorted(a) && Sorted(b) && forall g :: g in a <==> g in b
    ensures a == b
  {
    assert (a != [] ==> a[0] in a) && (b != [] ==> b[0] in b);
    if a != [] {
      HeadsEqual(a, b);
      TailMembers(a);
      TailMembers(b);
      SortedUnique(a[1..], b[1..]);
      assert a == [a[0]] + a[1..] && b == [b[0]] + b[1..];
    }
  }

  lemma TailMembers(a: seq<Field>)
    requires Sorted(a) && a != []
    ensures Sorted(a[1..]) && forall g :: g in a[1..] <==> g in a && g != a[0]
  {
    forall g ensures g in a[1..] <==> g in a && g != a[0] {
      if g in a[1..] {
        var k :| 0 <= k < |a[1..]| && a[1..][k] == g;
        assert Before(a[0].key, a[k + 1].key);
        BeforeTotal(a[0].key, a[0].key);
      }
    }
  }

  // -------------------------------------------------------- the same value

  /** Equal up to the order of the keys of every object. */
  predicate Same(v: Json, w: Json)
    decreases v, 1
  {
    match v
    case Arr(items) => w.Arr? && |w.items| == |items| && forall i :: 0 <= i < |items| ==> Same(items[i], w.items[i])
    case Obj(fields) =>
      && w.Obj?
      && (forall i :: 0 <= i < |fields| ==> SameIn(fields[i], w.fields))
      && (forall k :: 0 <= k < |w.fields| ==> SameOf(v, w.fields[k]))
    case _ => v == w
  }

  /** The other object has this field, up to key order. */
  predicate SameIn(f: Field, others: seq<Field>)
    decreases f, 0
  {
    exists k :: 0 <= k < |others| && f.key == others[k].key && Same(f.value, others[k].value)
  }

  predicate SameOf(v: Json, g: Field)
    requires v.Obj?
    decreases v, 0
  {
    exists i :: 0 <= i < |v.fields| && v.fields[i].key == g.key && Same(v.fields[i].value, g.value)
  }

  function SortedFields(fields: seq<Field>): seq<Field> {
    seq(|fields|, i requires 0 <= i < |fields| => Field(fields[i].key, SortKeys(fields[i].value)))
  }

  lemma SortedObject(fields: seq<Field>)
    requires DistinctKeys(fields)
    ensures SortKeys(Obj(fields)) == Obj(Arrange(SortedFields(fields)))
    ensures Sorted(Arrange(SortedFields(fields)))
    ensures forall g :: g in Arrange(SortedFields(fields)) <==> g in SortedFields(fields) && g.key != PROTO
  {
    assert DistinctKeys(SortedFields(fields));
    ArrangeSorted(SortedFields(fields));
  }

  predicate MatchIn(f: Field, others: seq<Field>) {
    exists k :: 0 <= k < |others| && f.key == others[k].key && SortKeys(f.value) == SortKeys(others[k].value)
  }

  predicate FieldsMatch(fields: seq<Field>, others: seq<Field>) {
    forall i :: 0 <= i < |fields| ==> MatchIn(fields[i], others)
  }

  lemma MatchMember(f: Field, others: seq<Field>)
    ensures MatchIn(f, others) <==> Field(f.key, SortKeys(f.value)) in SortedFields(others)
  {
    var g, b := Field(f.key, SortKeys(f.value)), SortedFields(others);
    if MatchIn(f, others) {
      var k :| 0 <= k < |others| && f.key == others[k].key && SortKeys(f.value) == SortKeys(others[k].value);
      assert b[k] == g;
    }
    if g in b {
      var k :| 0 <= k < |b| && b[k] == g;
      assert others[k].key == f.key && SortKeys(f.value) == SortKeys(others[k].value);
    }
  }

  lemma MatchMembers(fields: seq<Field>, others: seq<Field>)
    ensures FieldsMatch(fields, others) <==> forall g :: g in SortedFields(fields) ==> g in SortedFields(others)
  {
    var a := SortedFields(fields);
    forall i | 0 <= i < |fields| ensures MatchIn(fields[i], others) <==> a[i] in SortedFields(others) {
      MatchMember(fields[i], others);
    }
    assert forall i :: 0 <= i < |a| ==> a[i] in a;
  }

  predicate NoProto(fields: seq<Field>) {
    forall i :: 0 <= i < |fields| ==> fields[i].key != PROTO
  }

  lemma NothingLost(fields: seq<Field>)
    requires DistinctKeys(fields) && NoProto(fields)
    ensures forall g :: g in Arrange(SortedFields(fields)) <==> g in SortedFields(fields)
  {
    SortedObject(fields);
    forall g | g in SortedFields(fields) ensures g.key != PROTO {
      var k :| 0 <= k < |SortedFields(fields)| && SortedFields(fields)[k] == g;
      assert g.key == fields[k].key;
    }
  }

  lemma ObjectsSorted(fields: seq<Field>, others: seq<Field>)
    requires DistinctKeys(fields) && DistinctKeys(others) && NoProto(fields) && NoProto(others)
    ensures SortKeys(Obj(fields)) == SortKeys(Obj(others)) <==> FieldsMatch(fields, others) && FieldsMatch(others, fields)
  {
    SortedObject(fields);
    SortedObject(others);
    NothingLost(fields);
    NothingLost(others);
    MatchMembers(fields, others);
    MatchMembers(others, fields);
    if FieldsMatch(fields, others) && FieldsMatch(others, fields) {
      SortedUnique(Arrange(SortedFields(fields)), Arrange(SortedFields(others)));
    }
  }

  /** Sameness of the parts, as sorting sees it. */
  predicate ValuesAgree(fields: seq<Field>, others: seq<Field>) {
    forall i, k :: 0 <= i < |fields| && 0 <= k < |others| ==>
      (Same(fields[i].value, others[k].value) <==> SortKeys(fields[i].value) == SortKeys(others[k].value))
  }

  lemma SameInIff(f: Field, others: seq<Field>)
    requires forall k :: 0 <= k < |others| ==> (Same(f.value, others[k].value) <==> SortKeys(f.value) == SortKeys(others[k].value))
    ensures SameIn(f, others) <==> MatchIn(f, others)
  {
  }

  lemma SameOfIff(v: Json, g: Field)
    requires v.Obj?
    requires forall i :: 0 <= i < |v.fields| ==> (Same(v.fields[i].value, g.value) <==> SortKeys(v.fields[i].value) == SortKeys(g.value))
    ensures SameOf(v, g) <==> MatchIn(g, v.fields)
  {
  }

  lemma ObjectsSame(v: Json, w: Json)
    requires v.Obj? && w.Obj? && ValuesAgree(v.fields, w.fields)
    ensures Same(v, w) <==> FieldsMatch(v.fields, w.fields) && FieldsMatch(w.fields, v.fields)
  {
    forall i | 0 <= i < |v.fields| ensures SameIn(v.fields[i], w.fields) <==> MatchIn(v.fields[i], w.fields) {
      SameInIff(v.fields[i], w.fields);
    }
    forall k | 0 <= k < |w.fields| ensures SameOf(v, w.fields[k]) <==> MatchIn(w.fields[k], v.fields) {
      SameOfIff(v, w.fields[k]);
    }
  }

  lemma ArraysSame(v: Json, w: Json)
    requires v.Arr? && w.Arr?
    requires forall i :: 0 <= i < |v.items| && i < |w.items| ==>
      (Same(v.items[i], w.items[i]) <==> SortKeys(v.items[i]) == SortKeys(w.items[i]))
    ensures Same(v, w) <==> SortKeys(v) == SortKeys(w)
  {
    ArraysSorted(v.items, w.items);
  }

  /** No object at any depth has a member called "__proto__". */
  predicate Plain(j: Json) {
    match j
    case Arr(items) => forall i :: 0 <= i < |items| ==> Plain(items[i])
    case Obj(fields) => NoProto(fields) && forall i :: 0 <= i < |fields| ==> Plain(fields[i].value)
    case _ => true
  }

  /** Two plain values are the same up to key order exactly when sorting the keys makes them equal. */
  lemma {:induction false} SameIffSorted(v: Json, w: Json)
    requires Valid(v) && Valid(w) && Plain(v) && Plain(w)
    ensures Same(v, w) <==> SortKeys(v) == SortKeys(w)
    decreases v
  {
    if v.Arr? && w.Arr? {
      forall i | 0 <= i < |v.items| && i < |w.items|
        ensures Same(v.items[i], w.items[i]) <==> SortKeys(v.items[i]) == SortKeys(w.items[i])
      {
        SameIffSorted(v.items[i], w.items[i]);
      }
      ArraysSame(v, w);
    } else if v.Obj? && w.Obj? {
      forall i, k | 0 <= i < |v.fields| && 0 <= k < |w.fields|
        ensures Same(v.fields[i].value, w.fields[k].value) <==> SortKeys(v.fields[i].value) == SortKeys(w.fields[k].value)
      {
        SameIffSorted(v.fields[i].value, w.fields[k].value);
      }
      ObjectsSame(v, w);
      ObjectsSorted(v.fields, w.fields);
    }
  }

  lemma ArraysSorted(items: seq<Json>, others: seq<Json>)
    ensures SortKeys(Arr(items)) == SortKeys(Arr(others)) <==>
            |items| == |others| && forall i :: 0 <= i < |items| ==> SortKeys(items[i]) == SortKeys(others[i])
  {
    var a, b := SortKeys(Arr(items)).items, SortKeys(Arr(others)).items;
    if a == b {
      forall i | 0 <= i < |items| ensures SortKeys(items[i]) == SortKeys(others[i]) { assert a[i] == b[i]; }
    }
  }

  // -------------------------------------------------------------------- text

  function Hex(n: nat): char
    requires n < 16
  {
    if n < 10 then '0' + n as char else 'a' + (n - 10) as char
  }

  function EscapeChar(c: char): (e: string)
    ensures e != [] && e[0] != '"'
  {
    if c == '"' || c == '\\' then ['\\', c]
    else if c == '\n' then ['\\', 'n']
    else if c == '\r' then ['\\', 'r']
    else if c == '\t' then ['\\', 't']
    else if c == '\U{8}' then ['\\', 'b']
    else if c == '\U{c}' then ['\\', 'f']
    else if c < ' ' then ['\\', 'u', '0', '0', Hex(c as int / 16), Hex(c as int % 16)]
    else [c]
  }

  function Escape(s: string): string {
    if s == [] then [] else EscapeChar(s[0]) + Escape(s[1..])
  }

  function Quote(s: string): string {
    ['"'] + Escape(s) + ['"']
  }

  function Width(j: Json): nat {
    match j
    case Arr(items) => |items|
    case Obj(fields) => |fields|
    case _ => 0
  }

  /** `JSON.stringify`. */
  function Stringify(j: Json): string
    decreases j, Width(j) + 1
  {
    match j
    case Null => "null"
    case Bool(b) => if b then "true" else "false"
    case Num(text) => text
    case Str(s) => Quote(s)
    case Arr(_) => ['['] + Items(j, 0)
    case Obj(_) => ['{'] + Members(j, 0)
  }

  /** From the i-th item to the closing bracket. */
  function Items(j: Json, i: nat): string
    requires j.Arr? && i <= |j.items|
    decreases j, Width(j) - i
  {
    if i == |j.items| then [']']
    else (if i == 0 then [] else [',']) + Stringify(j.items[i]) + Items(j, i + 1)
  }

  function Members(j: Json, i: nat): (t: string)
    requires j.Obj? && i <= |j.fields|
    ensures |t| > 0
    decreases j, Width(j) - i
  {
    if i == |j.fields| then ['}']
    else
      (if i == 0 then [] else [',']) + Quote(j.fields[i].key) + [':'] + Stringify(j.fields[i].value) + Members(j, i + 1)
  }

  function Text(j: Json): string {
    Stringify(SortKeys(j))
  }

  // ------------------------------------------------------------ unambiguous

  /** What may follow a value: nothing that could prolong a number. */
  predicate Ends(r: string) {
    r == [] || !IsNumChar(r[0])
  }

  lemma EscapeCharUnambiguous(c: char, d: char, r: string, s: string)
    requires EscapeChar(c) + r == EscapeChar(d) + s
    ensures c == d && r == s
  {
    var x, y := EscapeChar(c) + r, EscapeChar(d) + s;
    assert x[0] == y[0] == EscapeChar(c)[0] == EscapeChar(d)[0];
    if |EscapeChar(c)| > 1 {
      assert |EscapeChar(d)| > 1;
      assert x[1] == EscapeChar(c)[1] && y[1] == EscapeChar(d)[1];
      if |EscapeChar(c)| == 6 {
        assert |EscapeChar(d)| == 6;
        assert x[4] == EscapeChar(c)[4] && y[4] == EscapeChar(d)[4] && x[5] == EscapeChar(c)[5] && y[5] == EscapeChar(d)[5];
        assert c as int / 16 == d as int / 16 && c as int % 16 == d as int % 16;
      }
    } else {
      assert |EscapeChar(d)| == 1;
    }
    assert c == d;
    assert r == x[|EscapeChar(c)|..] && s == y[|EscapeChar(d)|..];
  }

  lemma EscapeFirst(a: string, r: string)
    requires a != []
    ensures Escape(a) + ['"'] + r == EscapeChar(a[0]) + (Escape(a[1..]) + ['"'] + r)
  {
    Split3(EscapeChar(a[0]), Escape(a[1..]), ['"'], r);
    Regroup(Escape(a[1..]), ['"'], r);
  }

  lemma {:induction false} EscapeUnambiguous(a: string, b: string, r: string, s: string)
    requires Escape(a) + ['"'] + r == Escape(b) + ['"'] + s
    ensures a == b && r == s
    decreases |a|
  {
    var x, y := Escape(a) + ['"'] + r, Escape(b) + ['"'] + s;
    assert x[0] == if a == [] then '"' else EscapeChar(a[0])[0];
    assert y[0] == if b == [] then '"' else EscapeChar(b[0])[0];
    if a == [] {
      assert r == x[1..] && s == y[1..];
    } else {
      EscapeFirst(a, r);
      EscapeFirst(b, s);
      EscapeCharUnambiguous(a[0], b[0], Escape(a[1..]) + ['"'] + r, Escape(b[1..]) + ['"'] + s);
      EscapeUnambiguous(a[1..], b[1..], r, s);
      assert a == [a[0]] + a[1..] && b == [b[0]] + b[1..];
    }
  }

  lemma QuoteUnambiguous(a: string, b: string, r: string, s: string)
    requires Quote(a) + r == Quote(b) + s
    ensures a == b && r == s
  {
    assert (Quote(a) + r)[1..] == Escape(a) + ['"'] + r && (Quote(b) + s)[1..] == Escape(b) + ['"'] + s;
    EscapeUnambiguous(a, b, r, s);
  }

  lemma {:induction false} NumberUnambiguous(a: string, b: string, r: string, s: string)
    requires AllNumChars(a) && AllNumChars(b) && Ends(r) && Ends(s) && a + r == b + s
    ensures a == b && r == s
    decreases |a|
  {
    assert (a == [] ==> a + r == r) && (a != [] ==> (a + r)[0] == a[0]);
    assert (b == [] ==> b + s == s) && (b != [] ==> (b + s)[0] == b[0]);
    if a != [] {
      assert (a + r)[1..] == a[1..] + r && (b + s)[1..] == b[1..] + s;
      NumberUnambiguous(a[1..], b[1..], r, s);
      assert a == [a[0]] + a[1..] && b == [b[0]] + b[1..];
    }
  }

  /** The first character tells the kind of a value. */
  lemma FirstChar(j: Json)
    requires Valid(j)
    ensures var t := Stringify(j);
            && t != []
            && (j.Null? <==> t[0] == 'n') && (j.Bool? <==> t[0] in {'t', 'f'}) && (j.Num? <==> IsNumChar(t[0]))
            && (j.Str? <==> t[0] == '"') && (j.Arr? <==> t[0] == '[') && (j.Obj? <==> t[0] == '{')
  {
    if j.Num? { assert IsNumChar(j.text[0]); }
  }

  lemma SameStart(v: Json, w: Json, r: string, s: string)
    requires Valid(v) && Valid(w) && Stringify(v) + r == Stringify(w) + s
    ensures Stringify(v)[0] == Stringify(w)[0]
    ensures v.Null? == w.Null? && v.Bool? == w.Bool? && v.Num? == w.Num? && v.Str? == w.Str? && v.Arr? == w.Arr? && v.Obj? == w.Obj?
  {
    FirstChar(v);
    FirstChar(w);
    assert (Stringify(v) + r)[0] == Stringify(v)[0] && (Stringify(w) + s)[0] == Stringify(w)[0];
  }

  lemma Chop(p: string, q: string, r: string, s: string)
    requires p + r == q + s && |p| == |q|
    ensures p == q && r == s
  {
    assert (p + r)[..|p|] == p && (q + s)[..|q|] == q;
    assert (p + r)[|p|..] == r && (q + s)[|q|..] == s;
  }

  /** A text can be read in one way only, and one knows where a value ends. */
  lemma {:induction false} Unambiguous(v: Json, w: Json, r: string, s: string)
    requires Valid(v) && Valid(w) && Ends(r) && Ends(s) && Stringify(v) + r == Stringify(w) + s
    ensures v == w && r == s
    decreases v, Width(v) + 1
  {
    SameStart(v, w, r, s);
    match v {
      case Null => Chop("null", "null", r, s);
      case Bool(b) =>
        assert b == w.b;
        Chop(Stringify(v), Stringify(w), r, s);
      case Num(text) => NumberUnambiguous(text, w.text, r, s);
      case Str(t) => QuoteUnambiguous(t, w.s, r, s);
      case Arr(items) =>
        Chop(['['], ['['], Items(v, 0) + r, Items(w, 0) + s) by { Regroup(['['], Items(v, 0), r); Regroup(['['], Items(w, 0), s); }
        ItemsUnambiguous(v, w, 0, r, s);
      case Obj(fields) =>
        Chop(['{'], ['{'], Members(v, 0) + r, Members(w, 0) + s) by { Regroup(['{'], Members(v, 0), r); Regroup(['{'], Members(w, 0), s); }
        MembersUnambiguous(v, w, 0, r, s);
    }
  }

  lemma Regroup(a: string, b: string, c: string)
    ensures a + b + c == a + (b + c)
  {
  }

  lemma {:induction false} ItemsUnambiguous(v: Json, w: Json, i: nat, r: string, s: string)
    requires v.Arr? && w.Arr? && Valid(v) && Valid(w) && i <= |v.items| && i <= |w.items| && v.items[..i] == w.items[..i]
    requires Items(v, i) + r == Items(w, i) + s
    ensures v == w && r == s
    decreases v, Width(v) - i
  {
    if i == |v.items| || i == |w.items| {
      ItemsEnd(v, w, i, r, s);
    } else {
      var comma: string := if i == 0 then [] else [','];
      var x, y := Stringify(v.items[i]), Stringify(w.items[i]);
      Split3(comma, x, Items(v, i + 1), r);
      Split3(comma, y, Items(w, i + 1), s);
      Chop(comma, comma, x + (Items(v, i + 1) + r), y + (Items(w, i + 1) + s));
      Unambiguous(v.items[i], w.items[i], Items(v, i + 1) + r, Items(w, i + 1) + s);
      PrefixGrows(v.items, w.items, i);
      ItemsUnambiguous(v, w, i + 1, r, s);
    }
  }

  lemma PrefixGrows<T>(a: seq<T>, b: seq<T>, i: nat)
    requires i < |a| && i < |b| && a[..i] == b[..i] && a[i] == b[i]
    ensures a[..i + 1] == b[..i + 1]
  {
    assert a[..i + 1] == a[..i] + [a[i]] && b[..i + 1] == b[..i] + [b[i]];
  }

  lemma Split3(a: string, b: string, c: string, d: string)
    ensures a + b + c + d == a + (b + (c + d))
  {
  }

  lemma ItemsHead(v: Json, i: nat, r: string)
    requires v.Arr? && Valid(v) && i <= |v.items|
    ensures |Items(v, i)| > 0 && ((Items(v, i) + r)[0] == ']' <==> i == |v.items|)
  {
    if i < |v.items| { FirstChar(v.items[i]); }
    assert (Items(v, i) + r)[0] == Items(v, i)[0];
  }

  lemma ItemsEnd(v: Json, w: Json, i: nat, r: string, s: string)
    requires v.Arr? && w.Arr? && Valid(v) && Valid(w) && i <= |v.items| && i <= |w.items| && v.items[..i] == w.items[..i]
    requires (i == |v.items| || i == |w.items|) && Items(v, i) + r == Items(w, i) + s
    ensures v == w && r == s
  {
    ItemsHead(v, i, r);
    ItemsHead(w, i, s);
    assert v.items == v.items[..i] && w.items == w.items[..i];
    Chop([']'], [']'], r, s);
  }

  lemma {:induction false} MembersUnambiguous(v: Json, w: Json, i: nat, r: string, s: string)
    requires v.Obj? && w.Obj? && Valid(v) && Valid(w) && i <= |v.fields| && i <= |w.fields| && v.fields[..i] == w.fields[..i]
    requires Members(v, i) + r == Members(w, i) + s
    ensures v == w && r == s
    decreases v, Width(v) - i
  {
    if i == |v.fields| || i == |w.fields| {
      MembersEnd(v, w, i, r, s);
    } else {
      var f, g := v.fields[i], w.fields[i];
      MemberKeys(v, w, i, r, s);
      Unambiguous(f.value, g.value, Members(v, i + 1) + r, Members(w, i + 1) + s);
      PrefixGrows(v.fields, w.fields, i);
      MembersUnambiguous(v, w, i + 1, r, s);
    }
  }

  /** The i-th members start with the same key. */
  lemma MemberKeys(v: Json, w: Json, i: nat, r: string, s: string)
    requires v.Obj? && w.Obj? && i < |v.fields| && i < |w.fields| && Members(v, i) + r == Members(w, i) + s
    ensures v.fields[i].key == w.fields[i].key
    ensures Stringify(v.fields[i].value) + (Members(v, i + 1) + r) == Stringify(w.fields[i].value) + (Members(w, i + 1) + s)
    ensures Ends(Members(v, i + 1) + r) && Ends(Members(w, i + 1) + s)
  {
    var f, g := v.fields[i], w.fields[i];
    MemberSplits(v, i, r);
    MemberSplits(w, i, s);
    var restV, restW := Stringify(f.value) + (Members(v, i + 1) + r), Stringify(g.value) + (Members(w, i + 1) + s);
    var comma: string := if i == 0 then [] else [','];
    Chop(comma, comma, Quote(f.key) + ([':'] + restV), Quote(g.key) + ([':'] + restW));
    QuoteUnambiguous(f.key, g.key, [':'] + restV, [':'] + restW);
    Chop([':'], [':'], restV, restW);
  }

  lemma Split5(a: string, b: string, c: string, d: string, e: string, f: string)
    ensures a + b + c + d + e + f == a + (b + (c + (d + (e + f))))
  {
  }

  lemma MembersNext(v: Json, i: nat, r: string)
    requires v.Obj? && i <= |v.fields|
    ensures i > 0 ==> Ends(Members(v, i) + r)
  {
    assert i > 0 ==> Members(v, i)[0] in {',', '}'};
    assert (Members(v, i) + r)[0] == Members(v, i)[0];
  }

  lemma MemberSplits(v: Json, i: nat, r: string)
    requires v.Obj? && i < |v.fields|
    ensures Members(v, i) + r ==
      (if i == 0 then [] else [',']) +
      (Quote(v.fields[i].key) + ([':'] + (Stringify(v.fields[i].value) + (Members(v, i + 1) + r))))
    ensures Ends(Members(v, i + 1) + r)
  {
    var comma: string := if i == 0 then [] else [','];
    Split5(comma, Quote(v.fields[i].key), [':'], Stringify(v.fields[i].value), Members(v, i + 1), r);
    MembersNext(v, i + 1, r);
  }

  lemma MembersEnd(v: Json, w: Json, i: nat, r: string, s: string)
    requires v.Obj? && w.Obj? && i <= |v.fields| && i <= |w.fields| && v.fields[..i] == w.fields[..i]
    requires (i == |v.fields| || i == |w.fields|) && Members(v, i) + r == Members(w, i) + s
    ensures v == w && r == s
  {
    var x, y := Members(v, i) + r, Members(w, i) + s;
    assert x[0] == y[0] && x[0] == Members(v, i)[0] && y[0] == Members(w, i)[0];
    assert v.fields == v.fields[..i] && w.fields == w.fields[..i];
    Chop(['}'], ['}'], r, s);
  }

  lemma {:induction false} SortedValid(j: Json)
    requires Valid(j)
    ensures Valid(SortKeys(j))
    decreases j
  {
    match j {
      case Arr(items) => forall i | 0 <= i < |items| ensures Valid(SortKeys(items[i])) { SortedValid(items[i]); }
      case Obj(fields) =>
        forall i | 0 <= i < |fields| ensures Valid(SortedFields(fields)[i].value) { SortedValid(fields[i].value); }
        SortedObject(fields);
        var arranged := Arrange(SortedFields(fields));
        forall i | 0 <= i < |arranged| ensures Valid(arranged[i].value) {
          assert arranged[i] in arranged && arranged[i] in SortedFields(fields);
        }
        forall i, k | 0 <= i < k < |arranged| ensures arranged[i].key != arranged[k].key {
          BeforeTotal(arranged[i].key, arranged[i].key);
        }
      case _ =>
    }
  }

  // ---------------------------------------------------------- what is lost

  /** The value without the members called "__proto__", at any depth. */
  function Strip(j: Json): Json
    decreases j, Width(j) + 1
  {
    match j
    case Arr(items) => Arr(seq(|items|, i requires 0 <= i < |items| => Strip(items[i])))
    case Obj(fields) => Obj(StripFrom(j, 0))
    case _ => j
  }

  function StripFrom(j: Json, i: nat): seq<Field>
    requires j.Obj? && i <= |j.fields|
    decreases j, Width(j) - i
  {
    if i == |j.fields| then []
    else if j.fields[i].key == PROTO then StripFrom(j, i + 1)
    else [Field(j.fields[i].key, Strip(j.fields[i].value))] + StripFrom(j, i + 1)
  }

  /** Each member left was there. */
  lemma {:induction false} StripMembers(j: Json, i: nat)
    requires j.Obj? && i <= |j.fields|
    ensures forall n :: 0 <= n < |StripFrom(j, i)| ==>
      StripFrom(j, i)[n].key != PROTO &&
      exists k :: i <= k < |j.fields| && StripFrom(j, i)[n] == Field(j.fields[k].key, Strip(j.fields[k].value))
    decreases |j.fields| - i
  {
    if i < |j.fields| {
      StripMembers(j, i + 1);
      var rest := StripFrom(j, i + 1);
      forall n | 0 <= n < |StripFrom(j, i)|
        ensures StripFrom(j, i)[n].key != PROTO
        ensures exists k :: i <= k < |j.fields| && StripFrom(j, i)[n] == Field(j.fields[k].key, Strip(j.fields[k].value))
      {
        var m := if j.fields[i].key == PROTO then n else n - 1;
        if m < 0 {
          assert StripFrom(j, i)[n] == Field(j.fields[i].key, Strip(j.fields[i].value));
        } else {
          var k :| i + 1 <= k < |j.fields| && rest[m] == Field(j.fields[k].key, Strip(j.fields[k].value));
          assert StripFrom(j, i)[n] == rest[m];
        }
      }
    }
  }

  lemma {:induction false} StripDistinct(j: Json, i: nat)
    requires j.Obj? && i <= |j.fields| && DistinctKeys(j.fields)
    ensures DistinctKeys(StripFrom(j, i))
    decreases |j.fields| - i
  {
    if i < |j.fields| {
      StripDistinct(j, i + 1);
      StripMembers(j, i + 1);
    }
  }

  /** What is left is well formed and holds no such member. */
  lemma {:induction false} StripIsPlain(j: Json)
    requires Valid(j)
    ensures Valid(Strip(j)) && Plain(Strip(j))
    decreases j
  {
    match j {
      case Arr(items) =>
        forall i | 0 <= i < |items| ensures Valid(Strip(items[i])) && Plain(Strip(items[i])) { StripIsPlain(items[i]); }
      case Obj(fields) =>
        forall i | 0 <= i < |fields| ensures Valid(Strip(fields[i].value)) && Plain(Strip(fields[i].value)) {
          StripIsPlain(fields[i].value);
        }
        StripDistinct(j, 0);
        StripMembers(j, 0);
      case _ =>
    }
  }

  lemma SortedCons(f: Field, rest: seq<Field>)
    ensures SortedFields([f] + rest) == [Field(f.key, SortKeys(f.value))] + SortedFields(rest)
  {
  }

  lemma {:induction false} ArrangeStripped(j: Json, i: nat)
    requires j.Obj? && i <= |j.fields|
    requires forall k :: 0 <= k < |j.fields| ==> SortKeys(Strip(j.fields[k].value)) == SortKeys(j.fields[k].value)
    ensures Arrange(SortedFields(StripFrom(j, i))) == Arrange(SortedFields(j.fields[i..]))
    decreases |j.fields| - i
  {
    if i < |j.fields| {
      var f := j.fields[i];
      ArrangeStripped(j, i + 1);
      assert j.fields[i..] == [f] + j.fields[i + 1..];
      SortedCons(f, j.fields[i + 1..]);
      SortedCons(Field(f.key, Strip(f.value)), StripFrom(j, i + 1));
    }
  }

  /** Rebuilding an object loses those members and nothing else. */
  lemma {:induction false} SortStripped(j: Json)
    ensures SortKeys(Strip(j)) == SortKeys(j)
    decreases j
  {
    match j {
      case Arr(items) =>
        forall i | 0 <= i < |items| ensures SortKeys(Strip(items[i])) == SortKeys(items[i]) { SortStripped(items[i]); }
      case Obj(fields) =>
        forall i | 0 <= i < |fields| ensures SortKeys(Strip(fields[i].value)) == SortKeys(fields[i].value) {
          SortStripped(fields[i].value);
        }
        ArrangeStripped(j, 0);
        assert j.fields[0..] == j.fields;
      case _ =>
    }
  }

  /** The members, each with its value stripped. */
  function StripEach(fields: seq<Field>): seq<Field> {
    seq(|fields|, i requires 0 <= i < |fields| => Field(fields[i].key, Strip(fields[i].value)))
  }

  lemma {:induction false} AllKept(j: Json, i: nat)
    requires j.Obj? && i <= |j.fields| && NoProto(j.fields)
    ensures StripFrom(j, i) == StripEach(j.fields)[i..]
    decreases |j.fields| - i
  {
    if i < |j.fields| {
      AllKept(j, i + 1);
      var each := StripEach(j.fields);
      assert each[i..] == [each[i]] + each[i + 1..];
    }
  }

  lemma {:induction false} PlainIsStripped(j: Json)
    requires Plain(j)
    ensures Strip(j) == j
    decreases j
  {
    match j {
      case Arr(items) => forall i | 0 <= i < |items| ensures Strip(items[i]) == items[i] { PlainIsStripped(items[i]); }
      case Obj(fields) =>
        forall i | 0 <= i < |fields| ensures Strip(fields[i].value) == fields[i].value { PlainIsStripped(fields[i].value); }
        AllKept(j, 0);
        assert StripEach(fields)[0..] == fields;
      case _ =>
    }
  }

  /** Two values have the same canonical text exactly when they are the same up to the order of
      their keys and to members called "__proto__", which the text leaves out. */
  lemma SameTextIffSame(v: Json, w: Json)
    requires Valid(v) && Valid(w)
    ensures Text(v) == Text(w) <==> Same(Strip(v), Strip(w))
  {
    StripIsPlain(v);
    StripIsPlain(w);
    SortStripped(v);
    SortStripped(w);
    SameIffSorted(Strip(v), Strip(w));
    SortedValid(v);
    SortedValid(w);
    if Text(v) == Text(w) {
      assert Text(v) + [] == Text(w) + [];
      Unambiguous(SortKeys(v), SortKeys(w), [], []);
    }
  }

  /** Without such members the text determines the value: storing it with reordered keys never
      changes the text, and two different values never share one. */
  lemma PlainTextIffSame(v: Json, w: Json)
    requires Valid(v) && Valid(w) && Plain(v) && Plain(w)
    ensures Text(v) == Text(w) <==> Same(v, w)
  {
    SameTextIffSame(v, w);
    PlainIsStripped(v);
    PlainIsStripped(w);
  }

  lemma ProtoStripped(value: Json)
    ensures Strip(Obj([Field(PROTO, value)])) == Obj([]) == Strip(Obj([]))
  {
    var v := Obj([Field(PROTO, value)]);
    assert StripFrom(v, 1) == [] && StripFrom(v, 0) == StripFrom(v, 1);
  }

  /** With one, it does not: an object whose only member is called "__proto__" reads like the
      empty object. */
  lemma ProtoIsLost(value: Json)
    requires Valid(value)
    ensures var v, w := Obj([Field(PROTO, value)]), Obj([]);
            Valid(v) && Valid(w) && Text(v) == Text(w) && !Same(v, w)
  {
    var v, w := Obj([Field(PROTO, value)]), Obj([]);
    SortedObject(v.fields);
    SortedObject(w.fields);
    assert SortedFields(v.fields)[1..] == [] && SortedFields(w.fields) == [];
    assert !SameIn(v.fields[0], w.fields);
  }
}
