/**
 Jurisdiction dates: the civil-date-to-unix computation behind attestation expiry, and the three places
 that compare a date with an effective window.
 */
module Calendar {
  import opened Wrappers

  type i16 = x: int | -0x8000 <= x < 0x8000
  type u8 = x: int | 0 <= x < 0x100

  datatype Date = Date(year: i16, month: u8, day: u8)

  const EPOCH := Date(1970, 1, 1)
  const LAST_DATE := Date(0x7fff, 12, 31)
  const DAY: int := 86400

  // ---- the calendar itself ----

  predicate IsLeap(year: int) {
    year % 4 == 0 && (year % 100 != 0 || year % 400 == 0)
  }

  function DaysIn(year: int, month: int): int {
    if month == 2 then (if IsLeap(year) then 29 else 28)
    else if month in {4, 6, 9, 11} then 30
    else 31
  }

  predicate IsReal(d: Date) {
    1 <= d.month <= 12 && 1 <= d.day <= DaysIn(d.year, d.month)
  }

  function NextDay(d: Date): (next: Date)
    requires IsReal(d) && d != LAST_DATE
    ensures IsReal(next)
    ensures Before(d, next) && forall e :: IsReal(e) && Before(d, e) ==> !Before(e, next)
  {
    if d.day < DaysIn(d.year, d.month) then Date(d.year, d.month, d.day + 1)
    else if d.month < 12 then Date(d.year, d.month + 1, 1)
    else Date(d.year + 1, 1, 1)
  }

  /** Calendar order: (year, month, day) compared as a tuple. */
  predicate Before(a: Date, b: Date) {
    a.year < b.year || (a.year == b.year && (a.month < b.month || (a.month == b.month && a.day < b.day)))
  }

  // ---- unix_start_of ----

  /** Integer division as Rust's `/`: truncated toward zero. */
  function TruncDiv(a: int, b: int): int
    requires b > 0
  {
    if a >= 0 then a / b else -(-a / b)
  }

  /** Years are counted from March, so that the leap day is the last day of its year. */
  function MarchYear(d: Date): int {
    d.year - (if d.month <= 2 then 1 else 0)
  }

  function Era(d: Date): int {
    var year := MarchYear(d);
    TruncDiv(if year >= 0 then year else year - 399, 400)
  }

  function YearOfEra(d: Date): int {
    MarchYear(d) - Era(d) * 400
  }

  function DayOfYear(d: Date): int {
    TruncDiv(153 * (d.month + (if d.month > 2 then -3 else 9)) + 2, 5) + d.day - 1
  }

  function DayOfEra(d: Date): int {
    YearOfEra(d) * 365 + TruncDiv(YearOfEra(d), 4) - TruncDiv(YearOfEra(d), 100) + DayOfYear(d)
  }

  function UnixStartOf(d: Date): int {
    (Era(d) * 146097 + DayOfEra(d) - 719468) * DAY
  }

  lemma EraIsFloor(d: Date)
    ensures Era(d) == MarchYear(d) / 400 && YearOfEra(d) == MarchYear(d) % 400
  {
  }

  lemma IntermediatesInRange(d: Date)
    requires IsReal(d)
    ensures 0 <= YearOfEra(d) <= 399
    ensures 0 <= DayOfYear(d) <= 365
    ensures 0 <= DayOfEra(d) <= 146096
  {
    EraIsFloor(d);
    var y := YearOfEra(d);
    if DayOfYear(d) == 365 {
      assert IsLeap(d.year) && d.year == MarchYear(d) + 1;
      assert y % 4 == 3;
    }
  }

  lemma EpochIsZero()
    ensures UnixStartOf(EPOCH) == 0
  {
  }

  lemma NextDayAddsOneDay(d: Date)
    requires IsReal(d) && d != LAST_DATE
    ensures UnixStartOf(NextDay(d)) == UnixStartOf(d) + DAY
  {
    var n := NextDay(d);
    ByMarchYear(d);
    ByMarchYear(n);
    if d.month == 2 && d.day == DaysIn(d.year, 2) {
      NewMarchYear(d, MarchYear(d));
    } else {
      SameMarchYear(d);
    }
  }

  lemma ByMarchYear(d: Date)
    ensures UnixStartOf(d) == (DaysBeforeMarch(MarchYear(d)) + DayOfYear(d) - 719468) * DAY
  {
    EraIsFloor(d);
  }

  /** Days before the first of March of year `y`, counted from year 0. */
  function DaysBeforeMarch(y: int): int {
    (y / 400) * 146097 + DaysBefore(y % 400)
  }

  lemma SameMarchYear(d: Date)
    requires IsReal(d) && d != LAST_DATE && !(d.month == 2 && d.day == DaysIn(d.year, 2))
    ensures MarchYear(NextDay(d)) == MarchYear(d) && DayOfYear(NextDay(d)) == DayOfYear(d) + 1
  {
  }

  /** The last of February is followed by the first day of the next March year. */
  lemma NewMarchYear(d: Date, y: int)
    requires IsReal(d) && d.month == 2 && d.day == DaysIn(d.year, 2) && y == MarchYear(d)
    ensures DayOfYear(NextDay(d)) == 0 && MarchYear(NextDay(d)) == y + 1
    ensures DaysBeforeMarch(y) + DayOfYear(d) + 1 == DaysBeforeMarch(y + 1)
  {
    var e, r := y / 400, y % 400;
    LeapInEra(e, r);
    assert d.year == e * 400 + r + 1 && DayOfYear(d) == if IsLeap(d.year) then 365 else 364;
    EraStep(r);
    EraCarry(e, r);
  }

  lemma EraCarry(e: int, r: int)
    requires 0 <= r < 400
    ensures (e * 400 + r + 1) / 400 == (if r == 399 then e + 1 else e)
    ensures (e * 400 + r + 1) % 400 == (if r == 399 then 0 else r + 1)
  {
  }

  /** Days of an era before its `r`-th March year. */
  function DaysBefore(r: int): int {
    r * 365 + r / 4 - r / 100
  }

  predicate LeapAfter(r: int) {
    (r + 1) % 4 == 0 && ((r + 1) % 100 != 0 || r == 399)
  }

  lemma EraStep(r: int)
    requires 0 <= r < 400
    ensures DaysBefore(r) + (if LeapAfter(r) then 366 else 365) == if r == 399 then 146097 else DaysBefore(r + 1)
  {
    QuarterStep(r);
    CenturyStep(r);
  }

  lemma QuarterStep(r: int)
    ensures (r + 1) / 4 == r / 4 + (if (r + 1) % 4 == 0 then 1 else 0)
  {
  }

  lemma CenturyStep(r: int)
    ensures (r + 1) / 100 == r / 100 + (if (r + 1) % 100 == 0 then 1 else 0)
    ensures (r + 1) % 100 == 0 ==> (r + 1) % 4 == 0
  {
  }

  lemma LeapInEra(e: int, r: int)
    requires 0 <= r < 400
    ensures IsLeap(e * 400 + r + 1) <==> LeapAfter(r)
  {
    ModShift(r + 1, 100 * e, 4);
    ModShift(r + 1, 4 * e, 100);
    ModShift(r + 1, e, 400);
    assert (r + 1) % 400 == 0 <==> r == 399;
  }

  lemma ModShift(a: int, k: int, m: int)
    requires m > 0
    ensures (k * m + a) % m == a % m
  {
    var q, r := a / m, a % m;
    assert k * m + a == (k + q) * m + r;
    ModUnique(k * m + a, k + q, r, m);
  }

  lemma ModUnique(a: int, q: int, r: int, m: int)
    requires m > 0 && 0 <= r < m && a == q * m + r
    ensures a % m == r
  {
    var d := a / m - q;
    assert d * m == r - a % m;
    assert d >= 1 ==> d * m >= m;
    assert d <= -1 ==> d * m <= -m;
  }

  // ---- what the day count means ----

  /** The date `n` days after `d`, if the 16-bit year still holds it. */
  function DaysAfter(d: Date, n: nat): Option<Date>
    requires IsReal(d)
    decreases n
  {
    if n == 0 then Some(d) else if d == LAST_DATE then None else DaysAfter(NextDay(d), n - 1)
  }

  lemma {:induction false} CountsDays(d: Date, n: nat)
    requires IsReal(d) && DaysAfter(d, n).Some?
    ensures IsReal(DaysAfter(d, n).value)
    ensures UnixStartOf(DaysAfter(d, n).value) == UnixStartOf(d) + n * DAY
    decreases n
  {
    if n > 0 {
      NextDayAddsOneDay(d);
      CountsDays(NextDay(d), n - 1);
    }
  }

  /** Real dates in calendar order are real days apart. */
  lemma {:induction false} Reaches(a: Date, b: Date) returns (n: nat)
    requires IsReal(a) && IsReal(b) && (a == b || Before(a, b))
    ensures DaysAfter(a, n) == Some(b)
    ensures a != b ==> n > 0
    decreases (b.year - a.year) * 384 + (b.month - a.month) * 32 + b.day - a.day
  {
    if a == b {
      n := 0;
    } else {
      n := Reaches(NextDay(a), b);
      n := n + 1;
    }
  }

  lemma StrictlyIncreasing(a: Date, b: Date)
    requires IsReal(a) && IsReal(b)
    ensures Before(a, b) <==> UnixStartOf(a) < UnixStartOf(b)
  {
    if Before(a, b) {
      var n := Reaches(a, b);
      CountsDays(a, n);
    } else {
      var n := Reaches(b, a);
      CountsDays(b, n);
    }
  }

  /** R4: the attestation is rejected at `now` once its expiration date has begun. */
  predicate Expired(nowUnix: nat, expiration: Date) {
    var now := if nowUnix <= 0x7fff_ffff_ffff_ffff then nowUnix else 0x7fff_ffff_ffff_ffff;
    now >= UnixStartOf(expiration)
  }

  /** A clock reading on calendar day `today` finds the attestation expired exactly from its expiration date on. */
  lemma ExpiryFollowsCalendar(nowUnix: nat, today: Date, expiration: Date)
    requires IsReal(today) && IsReal(expiration)
    requires UnixStartOf(today) <= nowUnix < UnixStartOf(today) + DAY
    ensures Expired(nowUnix, expiration) <==> !Before(today, expiration)
  {
    StrictlyIncreasing(today, expiration);
    if Before(today, expiration) {
      var n := Reaches(today, expiration);
      CountsDays(today, n);
    }
  }

  // ---- effective windows ----

  /** `window_contains` of the registry: closed-open, date-only, `None` never closes. */
  function WindowContains(from: Date, to: Option<Date>, point: Date): bool {
    if Before(point, from) then false
    else
      match to
      case None => true
      case Some(to) => Before(point, to)
  }

  datatype Window = Window(from: Date, to: Option<Date>)

  /** `effective_at` of the preview runtime: its own comparison of (year, month, day) keys. */
  function EffectiveAt(window: Option<Window>, date: Date): bool {
    match window
    case None => true
    case Some(w) =>
      if KeyLess(date, w.from) then false
      else
        match w.to
        case Some(to) => KeyLess(date, to)
        case None => true
  }

  /** Calendar-order keys as one number, which is how a lexicographic tuple of bounded parts compares. */
  function Key(d: Date): int {
    d.year * 0x1_0000 + d.month * 0x100 + d.day
  }

  predicate KeyLess(a: Date, b: Date) {
    Key(a) < Key(b)
  }

  /** Where T4 takes a window to end: an open end is the last representable date. */
  function End(w: Window): Date {
    if w.to.Some? then w.to.value else LAST_DATE
  }

  /** T4's temporal test: both rules must declare a window. */
  function WindowsOverlap(a: Option<Window>, b: Option<Window>): bool {
    a.Some? && b.Some? && Before(a.value.from, End(b.value)) && Before(b.value.from, End(a.value))
  }

  lemma WindowsAgree(from: Date, to: Option<Date>, point: Date)
    ensures WindowContains(from, to, point) == EffectiveAt(Some(Window(from, to)), point)
  {
  }

  ghost predicate SharesDate(a: Window, b: Window) {
    exists d :: WindowContains(a.from, a.to, d) && WindowContains(b.from, b.to, d)
  }

  predicate NonEmpty(w: Window) {
    w.to.Some? ==> Before(w.from, w.to.value)
  }

  predicate OpensBeforeCloseOf(a: Window, b: Window) {
    b.to.Some? ==> Before(a.from, b.to.value)
  }

  predicate Meet(a: Window, b: Window) {
    OpensBeforeCloseOf(a, b) && OpensBeforeCloseOf(b, a)
  }

  /** Two windows share a date exactly when neither is empty and each opens before the other closes, if it does. */
  lemma SharedDateExactly(a: Window, b: Window)
    ensures SharesDate(a, b) <==> NonEmpty(a) && NonEmpty(b) && Meet(a, b)
  {
    var later := if Before(a.from, b.from) then b.from else a.from;
    if NonEmpty(a) && NonEmpty(b) && Meet(a, b) {
      assert WindowContains(a.from, a.to, later) && WindowContains(b.from, b.to, later);
    }
  }

  /** `a` never closes and `b` opens where T4 takes every open window to have ended. */
  predicate OpenPastLast(a: Window, b: Window) {
    a.to.None? && !Before(b.from, LAST_DATE)
  }

  /**
   The endpoints T4 gets right. Non-empty windows that meet: no open one faces a window opening on the last date or
   after it. An empty window: one of the two opens no earlier than T4 takes the other to end.
   */
  predicate EndpointsSuffice(a: Window, b: Window) {
    if NonEmpty(a) && NonEmpty(b) then Meet(a, b) ==> !OpenPastLast(a, b) && !OpenPastLast(b, a)
    else !Before(a.from, End(b)) || !Before(b.from, End(a))
  }

  /** Over all windows, T4's test means a shared date exactly on those endpoints. */
  lemma OverlapRightExactly(a: Window, b: Window)
    ensures (WindowsOverlap(Some(a), Some(b)) <==> SharesDate(a, b)) <==> EndpointsSuffice(a, b)
  {
    SharedDateExactly(a, b);
  }

  /** The window admits some date and opens before the last representable one. */
  predicate Proper(w: Window) {
    Before(w.from, LAST_DATE) && NonEmpty(w)
  }

  lemma OverlapIffSharedDate(a: Window, b: Window)
    requires Proper(a) && Proper(b)
    ensures WindowsOverlap(Some(a), Some(b)) <==> SharesDate(a, b)
  {
    OverlapRightExactly(a, b);
  }

  /** Outside `Proper` the test and the meaning part both ways. */
  lemma OverlapNeedsProper()
    ensures var empty := Window(Date(2024, 6, 1), Some(Date(2024, 6, 1)));
            var year := Window(Date(2024, 1, 1), Some(Date(2025, 1, 1)));
            WindowsOverlap(Some(empty), Some(year)) && forall d :: !WindowContains(empty.from, empty.to, d)
    ensures var last := Window(LAST_DATE, None);
            !WindowsOverlap(Some(last), Some(last)) && WindowContains(last.from, last.to, LAST_DATE)
  {
  }
}
