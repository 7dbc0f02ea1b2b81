/** Fixed-point money, quantities and prices (`src/common/money.ts`).

    Every Decimal of the program is an `int` counting units of 10^-4: the finest
    grid of the database columns. A currency amount is well formed when it is a
    multiple of the currency's minor unit. */
module Decimals {
  type Dec = int

  const ONE: Dec := 10000

  const ZERO_DECIMAL: set<string> := {"XAF", "XOF", "GNF", "RWF", "UGX", "JPY", "KRW"}

  predicate IsUpper(s: string) {
    forall i :: 0 <= i < |s| ==> !('a' <= s[i] <= 'z')
  }

  /** `toUpperCase` on the ASCII letters of a currency code. */
  function Upper(s: string): (u: string)
    ensures IsUpper(s) <==> u == s
  {
    seq(|s|, i requires 0 <= i < |s| => if 'a' <= s[i] <= 'z' then s[i] - 'a' + 'A' else s[i])
  }

  /** XAF and its like have no decimals, any other currency has two. */
  function DecimalsFor(currency: string): nat {
    if Upper(currency) in ZERO_DECIMAL then 0 else 2
  }

  /** The minor unit of a currency, on the 10^-4 grid. */
  function Unit(currency: string): (u: nat)
    ensures u == 10000 || u == 100
  {
    if DecimalsFor(currency) == 0 then 10000 else 100
  }

  /** The integer nearest to n / d, halves away from zero. */
  function RoundDiv(n: int, d: nat): (r: int)
    requires d > 0
  {
    if n >= 0 then (2 * n + d) / (2 * d) else -((2 * -n + d) / (2 * d))
  }

  /** The amount n / d (in 10^-4 units) rounded to the currency's minor unit. */
  function RoundRatio(n: int, d: nat, currency: string): Dec
    requires d > 0
  {
    RoundDiv(n, d * Unit(currency)) * Unit(currency)
  }

  function RoundMoney(amount: Dec, currency: string): Dec {
    RoundRatio(amount, 1, currency)
  }

  predicate IsRounded(amount: Dec, currency: string) {
    RoundMoney(amount, currency) == amount
  }

  /** RoundDiv is the nearest integer: off by at most half a unit, and a half goes
      away from zero. Only one integer satisfies both. */
  lemma RoundDivNearest(n: int, d: nat)
    requires d > 0
    ensures -(d as int) <= 2 * (RoundDiv(n, d) * d - n) <= d
    ensures 2 * (RoundDiv(n, d) * d - n) == d ==> n > 0
    ensures 2 * (RoundDiv(n, d) * d - n) == -(d as int) ==> n < 0
  {
    NearestQuotient(if n >= 0 then n else -n, d);
    if n < 0 { assert RoundDiv(n, d) * d == -((2 * -n + d) / (2 * d) * d); }
  }

  lemma NearestQuotient(m: nat, d: nat)
    requires d > 0
    ensures var q := (2 * m + d) / (2 * d); -(d as int) < 2 * (q * d - m) <= d && (2 * (q * d - m) == d ==> m > 0)
  {
    var q := (2 * m + d) / (2 * d);
    assert 2 * m + d == q * (2 * d) + (2 * m + d) % (2 * d);
    assert q * (2 * d) == 2 * (q * d);
    assert m == 0 ==> q == 0;
  }

  lemma MultiplesApart(x: int, y: int, d: nat)
    requires x > y
    ensures x * d >= y * d + d
  {
    assert x * d - y * d == (x - y) * d;
    assert (x - y) * d == (x - y - 1) * d + d;
  }

  lemma NearestUnique(n: int, d: nat, x: int, y: int)
    requires d > 0
    requires -(d as int) <= 2 * (x * d - n) <= d && -(d as int) < 2 * (y * d - n) < d
    ensures x == y
  {
    if x > y { MultiplesApart(x, y, d); }
    if y > x { MultiplesApart(y, x, d); }
  }

  lemma RoundDivUnique(n: int, d: nat, r: int)
    requires d > 0
    requires -(d as int) < 2 * (r * d - n) < d
    ensures RoundDiv(n, d) == r
  {
    RoundDivNearest(n, d);
    NearestUnique(n, d, RoundDiv(n, d), r);
  }

  lemma RoundDivExact(r: int, d: nat)
    requires d > 0
    ensures RoundDiv(r * d, d) == r
  {
    RoundDivUnique(r * d, d, r);
  }

  lemma RoundDivOdd(n: int, d: nat)
    requires d > 0
    ensures RoundDiv(-n, d) == -RoundDiv(n, d)
  {
  }

  lemma NearestMonotone(n: int, m: int, d: nat, x: int, y: int)
    requires d > 0 && n < m
    requires 2 * (x * d - n) <= d && -(d as int) <= 2 * (y * d - m)
    ensures x <= y
  {
    if x > y { MultiplesApart(x, y, d); }
  }

  lemma RoundDivMonotone(n: int, m: int, d: nat)
    requires d > 0 && n <= m
    ensures RoundDiv(n, d) <= RoundDiv(m, d)
  {
    if n < m {
      RoundDivNearest(n, d);
      RoundDivNearest(m, d);
      NearestMonotone(n, m, d, RoundDiv(n, d), RoundDiv(m, d));
    }
  }

  /** Rounded amounts are exactly the multiples of the minor unit. */
  lemma RoundedIsMultiple(amount: Dec, currency: string)
    ensures IsRounded(amount, currency) <==> amount % Unit(currency) == 0
  {
    var u := Unit(currency);
    if amount % u == 0 {
      assert amount == amount / u * u;
      RoundDivExact(amount / u, u);
    }
  }

  lemma RoundedNegated(amount: Dec, currency: string)
    ensures IsRounded(-amount, currency) == IsRounded(amount, currency)
  {
    RoundDivOdd(amount, Unit(currency));
  }

  /** `percentageFee`: percent of the base, floored and capped, then rounded. The
      comparison is made on the exact product, in units of 10^-10. */
  function PercentageFee(base: Dec, percent: Dec, currency: string, floor: Maybe<Dec>, cap: Maybe<Dec>): Dec {
    var scale := 100 * ONE;
    var fee := base * percent;
    var floored := if floor.Just? && fee < floor.value * scale then floor.value * scale else fee;
    var capped := if cap.Just? && floored > cap.value * scale then cap.value * scale else floored;
    RoundRatio(capped, scale, currency)
  }

  datatype Maybe<+T> = Nothing | Just(value: T)
}
