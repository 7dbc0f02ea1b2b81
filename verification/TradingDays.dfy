/** The session calendar (`src/modules/brokerage/trading-days.ts`): one session per weekday.

    A calendar day is a number of days since 1970-01-01, a Thursday; an instant a number of
    minutes since then in UTC, and the market's clock a fixed number of minutes ahead. */
module TradingDays {
  import opened Decimals

  type Day = int
  type Instant = int

  const MINUTES_PER_DAY := 1440

  /** The market's clock, cut-off and session close, the last two in minutes of the day. */
  datatype Market = Market(offset: int, cutoff: int, close: int)

  /** `getUTCDay`: 0 is Sunday. */
  function DayOfWeek(d: Day): nat {
    (d + 4) % 7
  }

  predicate IsTradingDay(d: Day) {
    DayOfWeek(d) != 0 && DayOfWeek(d) != 6
  }

  function CalendarDay(m: Market, at: Instant): Day {
    (at + m.offset) / MINUTES_PER_DAY
  }

  function LocalTime(m: Market, at: Instant): nat {
    (at + m.offset) % MINUTES_PER_DAY
  }

  /** The first trading day after d. */
  function NextTradingDay(d: Day): Day {
    if IsTradingDay(d + 1) then d + 1 else if IsTradingDay(d + 2) then d + 2 else d + 3
  }

  lemma NextIsFirstAfter(d: Day)
    ensures var n := NextTradingDay(d);
            n > d && IsTradingDay(n) && forall e :: d < e < n ==> !IsTradingDay(e)
  {
  }

  method ComputeNextTradingDay(day: Day) returns (d: Day)
    ensures d > day && IsTradingDay(d) && forall e :: day < e < d ==> !IsTradingDay(e)
    ensures d == NextTradingDay(day)
  {
    d := day + 1;
    while !IsTradingDay(d)
      invariant day < d <= NextTradingDay(day)
      invariant forall e :: day < e < d ==> !IsTradingDay(e)
      decreases NextTradingDay(day) - d
    {
      NextIsFirstAfter(day);
      d := d + 1;
    }
    NextIsFirstAfter(day);
  }

  function AddTradingDays(d: Day, n: nat): Day {
    if n == 0 then d else NextTradingDay(AddTradingDays(d, n - 1))
  }

  method ComputeAddTradingDays(day: Day, n: nat) returns (d: Day)
    ensures d == AddTradingDays(day, n)
  {
    d := day;
    for i := 0 to n
      invariant d == AddTradingDays(day, i)
    {
      d := ComputeNextTradingDay(d);
    }
  }

  /** Trading days in the closed interval. */
  function Count(from: Day, until: Day): nat
    decreases until - from
  {
    if until < from then 0 else Count(from, until - 1) + (if IsTradingDay(until) then 1 else 0)
  }

  method TradingDaysInclusive(from: Day, until: Day) returns (count: nat)
    ensures count == Count(from, until)
  {
    if until < from {
      return 0;
    }
    count := 0;
    var d := from;
    while d <= until
      invariant from <= d <= until + 1
      invariant count == Count(from, d - 1)
    {
      if IsTradingDay(d) {
        count := count + 1;
      }
      d := d + 1;
    }
  }

  // -------------------------------------------------- counting and stepping

  /** Trading days before d, from the Monday 1969-12-29: five a week, no loop. */
  function TradingBefore(d: Day): int {
    5 * ((d + 3) / 7) + (if (d + 3) % 7 < 5 then (d + 3) % 7 else 5)
  }

  lemma BeforeStep(d: Day)
    ensures TradingBefore(d + 1) == TradingBefore(d) + (if IsTradingDay(d) then 1 else 0)
  {
  }

  /** Counting day by day gives what the five-a-week formula gives. */
  lemma {:induction false} CountIsFormula(from: Day, until: Day)
    requires from <= until + 1
    ensures Count(from, until) == TradingBefore(until + 1) - TradingBefore(from)
    decreases until - from
  {
    if from <= until {
      CountIsFormula(from, until - 1);
      BeforeStep(until);
    }
  }

  lemma NextBefore(d: Day)
    ensures TradingBefore(NextTradingDay(d)) == TradingBefore(d + 1)
  {
    BeforeStep(d + 1);
    BeforeStep(d + 2);
  }

  lemma {:induction false} AddBefore(d: Day, n: nat)
    requires IsTradingDay(d)
    ensures AddTradingDays(d, n) >= d + n && IsTradingDay(AddTradingDays(d, n))
    ensures TradingBefore(AddTradingDays(d, n)) == TradingBefore(d) + n
  {
    if n > 0 {
      AddBefore(d, n - 1);
      NextIsFirstAfter(AddTradingDays(d, n - 1));
      NextBefore(AddTradingDays(d, n - 1));
      BeforeStep(AddTradingDays(d, n - 1));
    }
  }

  lemma {:induction false} BeforeMonotone(d: Day, e: Day)
    requires d <= e
    ensures TradingBefore(d) <= TradingBefore(e)
    decreases e - d
  {
    if d < e {
      BeforeStep(e - 1);
      BeforeMonotone(d, e - 1);
    }
  }

  /** Two trading days with as many trading days before them are the same day. */
  lemma BeforeInjective(d: Day, e: Day)
    requires IsTradingDay(d) && IsTradingDay(e) && TradingBefore(d) == TradingBefore(e)
    ensures d == e
  {
    BeforeStep(d);
    BeforeStep(e);
    if d < e { BeforeMonotone(d + 1, e); }
    if e < d { BeforeMonotone(e + 1, d); }
  }

  /** n trading days after a trading day, the closed interval counts n + 1. */
  lemma CountingUndoesStepping(f: Day, n: nat)
    requires IsTradingDay(f)
    ensures Count(f, AddTradingDays(f, n)) == n + 1
  {
    AddBefore(f, n);
    CountIsFormula(f, AddTradingDays(f, n));
    BeforeStep(AddTradingDays(f, n));
  }

  /** The last trading day on or before d. */
  function LastTradingDay(d: Day): Day {
    if IsTradingDay(d) then d else if IsTradingDay(d - 1) then d - 1 else d - 2
  }

  /** Stepping undoes counting: as many steps as were counted, less one, lead from f to the
      last trading day of the interval. */
  lemma SteppingUndoesCounting(f: Day, until: Day)
    requires IsTradingDay(f) && f <= until
    ensures Count(f, until) >= 1
    ensures AddTradingDays(f, Count(f, until) - 1) == LastTradingDay(until) >= f
  {
    var last := LastTradingDay(until);
    CountIsFormula(f, until);
    BeforeStep(f);
    BeforeMonotone(f + 1, until + 1);
    BeforeStep(until);
    BeforeStep(until - 1);
    BeforeStep(until - 2);
    AddBefore(f, Count(f, until) - 1);
    BeforeInjective(AddTradingDays(f, Count(f, until) - 1), last);
  }

  lemma {:induction false} AddAdd(d: Day, m: nat, n: nat)
    ensures AddTradingDays(AddTradingDays(d, m), n) == AddTradingDays(d, m + n)
  {
    if n > 0 { AddAdd(d, m, n - 1); }
  }

  // ------------------------------------------------------- sessions, expiry

  function FirstSession(m: Market, at: Instant): Day {
    var day := CalendarDay(m, at);
    if IsTradingDay(day) && LocalTime(m, at) < m.cutoff then day else NextTradingDay(day)
  }

  function LastSession(m: Market, transmittedAt: Instant, sessions: int): Day {
    AddTradingDays(FirstSession(m, transmittedAt), (if sessions > 1 then sessions else 1) - 1)
  }

  function IsExpired(m: Market, transmittedAt: Instant, sessions: int, now: Instant): bool {
    var last := LastSession(m, transmittedAt, sessions);
    var today := CalendarDay(m, now);
    if today > last then true else if today < last then false else LocalTime(m, now) >= m.close
  }

  /** DAY, GTD with its date, or text that is neither. */
  datatype Validity = DayOnly | GoodTill(until: Day) | Malformed

  function SessionsForValidity(m: Market, v: Validity, at: Instant): Maybe<int> {
    match v
    case DayOnly => Just(1)
    case Malformed => Nothing
    case GoodTill(until) =>
      var first := FirstSession(m, at);
      if until < first then Nothing
      else
        var n := Count(first, until);
        Just(if n > 1 then n else 1)
  }

  lemma FirstSessionTrades(m: Market, at: Instant)
    ensures IsTradingDay(FirstSession(m, at)) && FirstSession(m, at) >= CalendarDay(m, at)
  {
    NextIsFirstAfter(CalendarDay(m, at));
  }

  /** The instant of the market's session close on a day. */
  function CloseOf(m: Market, d: Day): Instant {
    d * MINUTES_PER_DAY + m.close - m.offset
  }

  /** An order expires at the close of its last session, not a minute earlier or later. */
  lemma ExpiresAtClose(m: Market, transmittedAt: Instant, sessions: int, now: Instant)
    requires 0 <= m.close < MINUTES_PER_DAY
    ensures IsExpired(m, transmittedAt, sessions, now) <==> now >= CloseOf(m, LastSession(m, transmittedAt, sessions))
  {
    var local := now + m.offset;
    assert local == CalendarDay(m, now) * MINUTES_PER_DAY + LocalTime(m, now);
  }

  /** A GTD order expires k trading days after the last trading day on or before its date,
      when it is transmitted k sessions after the one it was placed for. */
  lemma GoodTillDate(m: Market, until: Day, placed: Instant, sent: Instant, k: nat, now: Instant)
    requires 0 <= m.close < MINUTES_PER_DAY
    requires SessionsForValidity(m, GoodTill(until), placed).Just?
    requires FirstSession(m, sent) == AddTradingDays(FirstSession(m, placed), k)
    ensures var sessions := SessionsForValidity(m, GoodTill(until), placed).value;
            var expiry := AddTradingDays(LastTradingDay(until), k);
            && IsTradingDay(expiry)
            && (IsExpired(m, sent, sessions, now) <==> now >= CloseOf(m, expiry))
            && (expiry == LastTradingDay(until) <==> k == 0)
  {
    var first := FirstSession(m, placed);
    var sessions := SessionsForValidity(m, GoodTill(until), placed).value;
    FirstSessionTrades(m, placed);
    SteppingUndoesCounting(first, until);
    var steps := Count(first, until) - 1;
    AddAdd(first, k, steps);
    AddAdd(first, steps, k);
    AddBefore(first, steps);
    AddBefore(LastTradingDay(until), k);
    ExpiresAtClose(m, sent, sessions, now);
  }

  /** The GTD date is kept exactly when the order goes out in the session it was placed for. */
  lemma GoodTillDateKeptIff(m: Market, until: Day, placed: Instant, sent: Instant)
    requires 0 <= m.close < MINUTES_PER_DAY && SessionsForValidity(m, GoodTill(until), placed).Just?
    requires FirstSession(m, placed) <= FirstSession(m, sent)
    ensures var sessions := SessionsForValidity(m, GoodTill(until), placed).value;
            (forall now :: IsExpired(m, sent, sessions, now) <==> now >= CloseOf(m, LastTradingDay(until)))
            <==> FirstSession(m, sent) == FirstSession(m, placed)
  {
    var sessions := SessionsForValidity(m, GoodTill(until), placed).value;
    FirstSessionTrades(m, placed);
    FirstSessionTrades(m, sent);
    SteppingUndoesCounting(FirstSession(m, placed), FirstSession(m, sent));
    var k := Count(FirstSession(m, placed), FirstSession(m, sent)) - 1;
    assert FirstSession(m, sent) == LastTradingDay(FirstSession(m, sent));
    AddBefore(FirstSession(m, placed), k);
    forall now {
      GoodTillDate(m, until, placed, sent, k, now);
    }
    var expiry := AddTradingDays(LastTradingDay(until), k);
    if k > 0 {
      GoodTillDate(m, until, placed, sent, k, CloseOf(m, LastTradingDay(until)));
      GoodTillDate(m, until, placed, sent, k, CloseOf(m, expiry));
      var a, b := CloseOf(m, LastTradingDay(until)), CloseOf(m, expiry);
      assert a != b;
      assert IsExpired(m, sent, sessions, b) && (IsExpired(m, sent, sessions, a) <==> a >= b);
    }
  }

  /** An order is stale the moment it is transmitted exactly when it has a single session
      and goes out after that session's close but before the cut-off. */
  lemma StaleAtTransmissionIff(m: Market, at: Instant, sessions: int)
    ensures IsExpired(m, at, sessions, at) <==>
            sessions <= 1 && IsTradingDay(CalendarDay(m, at)) && m.close <= LocalTime(m, at) < m.cutoff
  {
    FirstSessionTrades(m, at);
    NextIsFirstAfter(CalendarDay(m, at));
    AddBefore(FirstSession(m, at), (if sessions > 1 then sessions else 1) - 1);
  }

  /** With a cut-off no later than the close, no order is stale when it goes out; and once
      stale it stays so. */
  lemma ExpiryIsStable(m: Market, at: Instant, sessions: int, now: Instant, later: Instant)
    requires 0 <= m.cutoff <= m.close < MINUTES_PER_DAY && now <= later
    ensures !IsExpired(m, at, sessions, at)
    ensures IsExpired(m, at, sessions, now) ==> IsExpired(m, at, sessions, later)
  {
    StaleAtTransmissionIff(m, at, sessions);
    ExpiresAtClose(m, at, sessions, now);
    ExpiresAtClose(m, at, sessions, later);
  }
}
