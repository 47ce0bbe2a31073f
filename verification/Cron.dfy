/**
 Cron schedules in UTC and the next-occurrence search. Instants are whole minutes
 since the Unix epoch; the caller's instant is in nanoseconds.
 */
module Cron {
  import opened Text
  import opened Calendar
  import opened CronField
  import opened CronSearch

  datatype Cron = Cron(minute: Field, hour: Field, dom: Field, month: Field, dow: Field)

  const MINUTES_PER_DAY: int := 1440

  const NANOS_PER_MINUTE: int := 60000000000

  // --- Parsing an expression -----------------------------------------------

  /** Maximal runs of non-whitespace, as `str::split_whitespace`. */
  function SplitWhitespace(s: string): seq<string> {
    if s == [] then []
    else
      var rest := SplitWhitespace(s[1..]);
      if IsWhitespace(s[0]) then rest
      else if |s| > 1 && !IsWhitespace(s[1]) && rest != [] then [[s[0]] + rest[0]] + rest[1..]
      else [[s[0]]] + rest
  }

  ghost predicate HasValue(f: Field, lo: nat, hi: nat) {
    exists v: nat :: lo <= v <= hi && f.Contains(v)
  }

  /** Every field has a value in its own range. */
  ghost predicate Accepted(c: Cron) {
    && HasValue(c.minute, 0, 59) && HasValue(c.hour, 0, 23)
    && HasValue(c.dom, 1, 31) && HasValue(c.month, 1, 12) && HasValue(c.dow, 0, 6)
  }

  lemma AcceptedField(spec: string, min: nat, max: nat, wrap: bool, r: Result<Field>)
    requires min <= max && (if wrap then min == 0 && max <= 7 else max <= 59)
    requires r.Ok? && FieldSpec(spec, ParseTerms(spec, min, max), wrap, r)
    ensures HasValue(r.value, min, if wrap then 6 else max)
  {
    var terms := ParseTerms(spec, min, max).value;
    var v := BitOf(wrap, terms[0].lo);
    StartIsMarked(terms[0], wrap);
    assert SomeMarks(terms, wrap, v, |terms|);
    assert r.value.Contains(v);
  }

  /** Lowest and highest value of each field, minute to day-of-week. */
  const RANGES: seq<(nat, nat)> := [(0, 59), (0, 23), (1, 31), (1, 12), (0, 7)]

  /** The error of the first field from `i` on that has a bad term. */
  function FirstError(parts: seq<string>, i: nat): Option<CronError>
    requires |parts| == 5 && i <= 5
    decreases 5 - i
  {
    if i == 5 then None
    else
      match ParseTerms(parts[i], RANGES[i].0, RANGES[i].1)
      case Err(error) => Some(error)
      case Ok(_) => FirstError(parts, i + 1)
  }

  /** Fields are parsed left to right; the first error is returned. */
  method ParseCron(expr: string) returns (r: Result<Cron>)
    ensures |SplitWhitespace(expr)| != 5 ==> r == Err(WrongFieldCount)
    ensures |SplitWhitespace(expr)| == 5 ==>
      match FirstError(SplitWhitespace(expr), 0)
      case Some(error) => r == Err(error)
      case None => r.Ok? && Accepted(r.value) && ParsedAs(SplitWhitespace(expr), r.value)
  {
    var parts := SplitWhitespace(expr);
    if |parts| != 5 { return Err(WrongFieldCount); }
    var minute := ParseField(parts[0], 0, 59, false);
    if minute.Err? { return Err(minute.error); }
    var hour := ParseField(parts[1], 0, 23, false);
    if hour.Err? { return Err(hour.error); }
    var dom := ParseField(parts[2], 1, 31, false);
    if dom.Err? { return Err(dom.error); }
    var month := ParseField(parts[3], 1, 12, false);
    if month.Err? { return Err(month.error); }
    var dow := ParseField(parts[4], 0, 7, true);
    if dow.Err? { return Err(dow.error); }
    var cron := Cron(minute.value, hour.value, dom.value, month.value, dow.value);
    ParsedIsAccepted(parts, cron);
    return Ok(cron);
  }

  lemma ParsedIsAccepted(parts: seq<string>, c: Cron)
    requires |parts| == 5 && ParsedAs(parts, c)
    ensures Accepted(c)
  {
    AcceptedField(parts[0], 0, 59, false, Ok(c.minute));
    AcceptedField(parts[1], 0, 23, false, Ok(c.hour));
    AcceptedField(parts[2], 1, 31, false, Ok(c.dom));
    AcceptedField(parts[3], 1, 12, false, Ok(c.month));
    AcceptedField(parts[4], 0, 7, true, Ok(c.dow));
  }

  /** Each field's text parses to that field over that field's range. */
  ghost predicate ParsedAs(parts: seq<string>, c: Cron)
    requires |parts| == 5
  {
    && FieldSpec(parts[0], ParseTerms(parts[0], 0, 59), false, Ok(c.minute))
    && FieldSpec(parts[1], ParseTerms(parts[1], 0, 23), false, Ok(c.hour))
    && FieldSpec(parts[2], ParseTerms(parts[2], 1, 31), false, Ok(c.dom))
    && FieldSpec(parts[3], ParseTerms(parts[3], 1, 12), false, Ok(c.month))
    && FieldSpec(parts[4], ParseTerms(parts[4], 0, 7), true, Ok(c.dow))
  }

  // --- Matching ------------------------------------------------------------

  /** Day number (from 0000-01-01) of a minute. */
  function DayOf(t: int): int { t / MINUTES_PER_DAY + UNIX_EPOCH }

  predicate DayMatches(c: Cron, n: int) {
    var domOk := c.dom.Contains(CivilDate(n).day);
    var dowOk := c.dow.Contains(Weekday(n));
    match (c.dom.isStar, c.dow.isStar)
    case (true, true) => true
    case (false, true) => domOk
    case (true, false) => dowOk
    case (false, false) => domOk || dowOk
  }

  predicate Matches(c: Cron, t: int) {
    && c.minute.Contains(t % MINUTES_PER_DAY % 60)
    && c.hour.Contains(t % MINUTES_PER_DAY / 60)
    && c.month.Contains(CivilDate(DayOf(t)).month)
    && DayMatches(c, DayOf(t))
  }

  /** Minute `mi` of hour `h` on day `k`. */
  function MinuteOf(k: int, h: nat, mi: nat): int { (k - UNIX_EPOCH) * MINUTES_PER_DAY + h * 60 + mi }

  lemma MinuteParts(day: int, h: int, mi: int)
    requires 0 <= h <= 23 && 0 <= mi <= 59
    ensures var t := day * MINUTES_PER_DAY + h * 60 + mi;
      t / MINUTES_PER_DAY == day && t % MINUTES_PER_DAY / 60 == h && t % MINUTES_PER_DAY % 60 == mi
  {
    var t := day * MINUTES_PER_DAY + h * 60 + mi;
    assert t % MINUTES_PER_DAY == h * 60 + mi;
  }

  /** Every minute is a civil date with an hour and a minute of the day. */
  lemma MinuteHasDate(t: int) returns (d: Date, h: nat, mi: nat)
    ensures ValidDate(d) && h <= 23 && mi <= 59 && t == MinuteOf(DayNumber(d), h, mi)
  {
    d, h, mi := CivilDate(DayOf(t)), t % MINUTES_PER_DAY / 60, t % MINUTES_PER_DAY % 60;
  }

  /** When a schedule fires on a civil date: its minute, hour and month must be
      listed; a restricted day-of-month or day-of-week must list the day, and when
      both are restricted either may. */
  lemma FiresOnDate(c: Cron, d: Date, h: nat, mi: nat)
    requires ValidDate(d) && h <= 23 && mi <= 59
    ensures var timely := c.minute.Contains(mi) && c.hour.Contains(h) && c.month.Contains(d.month);
      var onDay, onWeekday := c.dom.Contains(d.day), c.dow.Contains(Weekday(DayNumber(d)));
      var fires := Matches(c, MinuteOf(DayNumber(d), h, mi));
      && (c.dom.isStar && c.dow.isStar ==> (fires <==> timely))
      && (!c.dom.isStar && c.dow.isStar ==> (fires <==> timely && onDay))
      && (c.dom.isStar && !c.dow.isStar ==> (fires <==> timely && onWeekday))
      && (!c.dom.isStar && !c.dow.isStar ==> (fires <==> timely && (onDay || onWeekday)))
  {
    MatchesOnDay(c, DayNumber(d), h, mi);
    DayFieldsDecide(c, DayNumber(d), d.day, Weekday(DayNumber(d)));
    CivilRoundTrip(d);
  }

  lemma DayFieldsDecide(c: Cron, k: int, day: nat, weekday: nat)
    ensures CivilDate(k).day == day && Weekday(k) == weekday ==>
      && (c.dom.isStar && c.dow.isStar ==> DayMatches(c, k))
      && (!c.dom.isStar && c.dow.isStar ==> (DayMatches(c, k) <==> c.dom.Contains(day)))
      && (c.dom.isStar && !c.dow.isStar ==> (DayMatches(c, k) <==> c.dow.Contains(weekday)))
      && (!c.dom.isStar && !c.dow.isStar ==> (DayMatches(c, k) <==> c.dom.Contains(day) || c.dow.Contains(weekday)))
  {
  }

  lemma MatchesOnDay(c: Cron, k: int, h: nat, mi: nat)
    requires h <= 23 && mi <= 59
    ensures Matches(c, MinuteOf(k, h, mi)) <==>
      c.minute.Contains(mi) && c.hour.Contains(h) && c.month.Contains(CivilDate(k).month) && DayMatches(c, k)
  {
    MinuteParts(k - UNIX_EPOCH, h, mi);
  }

  /** With both day fields restricted a schedule is the union of the two obtained by
      starring one of them. */
  lemma EitherDayField(c: Cron, star: Field, t: int)
    requires !c.dom.isStar && !c.dow.isStar && star.isStar
    ensures Matches(c, t) <==> Matches(c.(dow := star), t) || Matches(c.(dom := star), t)
  {
    var d, h, mi := MinuteHasDate(t);
    FiresOnDate(c, d, h, mi);
    FiresOnDate(c.(dow := star), d, h, mi);
    FiresOnDate(c.(dom := star), d, h, mi);
  }

  // --- The search ----------------------------------------------------------

  function Fires(c: Cron): int -> bool { t => Matches(c, t) }

  /** `next_after`: truncate to the minute, step one minute at a time. The result
      is the least matching minute strictly after `after` in the horizon. */
  method NextAfter(c: Cron, after: int) returns (r: Option<int>)
    ensures r == Next(Fires(c), after / NANOS_PER_MINUTE)
    ensures r.Some? ==> r.value * NANOS_PER_MINUTE > after && Matches(c, r.value)
    ensures r.Some? ==> forall u :: after < u * NANOS_PER_MINUTE && u < r.value ==> !Matches(c, u)
    ensures r.None? ==> forall u :: after < u * NANOS_PER_MINUTE <= after + HORIZON * NANOS_PER_MINUTE ==> !Matches(c, u)
  {
    ghost var fires := Fires(c);
    var start := after / NANOS_PER_MINUTE + 1;
    var t := start;
    for i := 0 to HORIZON
      invariant t == start + i
      invariant forall u :: start <= u < t ==> !fires(u)
    {
      if Matches(c, t) {
        FirstIsNext(fires, start - 1, t);
        forall u | after < u * NANOS_PER_MINUTE && u < t ensures !Matches(c, u) { assert start <= u && !fires(u); }
        return Some(t);
      }
      assert !fires(t);
      t := t + 1;
    }
    forall u | after < u * NANOS_PER_MINUTE <= after + HORIZON * NANOS_PER_MINUTE ensures !Matches(c, u) {
      assert start <= u < start + HORIZON && !fires(u);
    }
    NoneIsNext(fires, start - 1);
    return None;
  }

  // --- Recurrence ----------------------------------------------------------

  /** Some date other than 29 February is admitted. A restricted day-of-week, or
      two stars, admits dates in every month. */
  ghost predicate AdmitsYearlyDate(c: Cron) {
    || !c.dow.isStar || c.dom.isStar
    || exists m: nat, d: nat ::
         1 <= m <= 12 && 1 <= d <= MonthLength(false, m) && c.month.Contains(m) && c.dom.Contains(d)
  }

  /** Day `d` of month `m` in the year after day `n`. */
  function NextYearDay(n: int, m: nat, d: nat): int
    requires 1 <= m <= 12 && 1 <= d <= MonthLength(false, m)
  {
    DayNumber(Date(YearOf(n) + 1, m, d))
  }

  lemma NextYearDate(n: int, m: nat, d: nat)
    requires 1 <= m <= 12 && 1 <= d <= MonthLength(false, m)
    ensures n < NextYearDay(n, m, d) <= n + 732
    ensures CivilDate(NextYearDay(n, m, d)).month == m && CivilDate(NextYearDay(n, m, d)).day == d
  {
    var y := YearOf(n) + 1;
    var date := Date(y, m, d);
    YearStep(y - 1);
    YearStep(y);
    WithinYear(date);
    CivilRoundTrip(date);
  }

  /** One of the first seven days of a month falls on weekday `w`. */
  lemma NextYearWeekday(n: int, m: nat, w: nat) returns (d: nat)
    requires 1 <= m <= 12 && w <= 6
    ensures 1 <= d <= 7 && Weekday(NextYearDay(n, m, d)) == w
  {
    var first := NextYearDay(n, m, 1);
    WeekdayShift(first, w);
    d := 1 + (w - Weekday(first)) % 7;
  }

  /** A day in the year after day `n` on which the schedule fires. */
  lemma MatchingDay(c: Cron, n: int) returns (k: int)
    requires Accepted(c) && AdmitsYearlyDate(c)
    ensures n < k <= n + 732 && c.month.Contains(CivilDate(k).month) && DayMatches(c, k)
  {
    var m: nat :| 1 <= m <= 12 && c.month.Contains(m);
    var d: nat := 1;
    if !c.dow.isStar {
      var w: nat :| w <= 6 && c.dow.Contains(w);
      d := NextYearWeekday(n, m, w);
    } else if !c.dom.isStar {
      m, d :| 1 <= m <= 12 && 1 <= d <= MonthLength(false, m) && c.month.Contains(m) && c.dom.Contains(d);
    }
    k := NextYearDay(n, m, d);
    NextYearDate(n, m, d);
  }

  lemma WeekdayShift(n: int, w: int)
    requires 0 <= w <= 6
    ensures Weekday(n + (w - Weekday(n)) % 7) == w
  {
  }

  lemma RecursFrom(c: Cron, m: int)
    requires Accepted(c) && AdmitsYearlyDate(c)
    ensures Next(Fires(c), m).Some?
  {
    var n := DayOf(m + 1);
    var k := MatchingDay(c, n);
    var mi: nat :| mi <= 59 && c.minute.Contains(mi);
    var h: nat :| h <= 23 && c.hour.Contains(h);
    FiresOn(c, k, h, mi);
    InHorizon(m, k, h, mi);
    assert Fires(c)(MinuteOf(k, h, mi));
  }

  lemma FiresOn(c: Cron, k: int, h: nat, mi: nat)
    requires h <= 23 && mi <= 59 && c.hour.Contains(h) && c.minute.Contains(mi)
    requires c.month.Contains(CivilDate(k).month) && DayMatches(c, k)
    ensures Matches(c, MinuteOf(k, h, mi))
  {
    MatchesOnDay(c, k, h, mi);
  }

  lemma InHorizon(m: int, k: int, h: nat, mi: nat)
    requires DayOf(m + 1) < k <= DayOf(m + 1) + 732 && h <= 23 && mi <= 59
    ensures m + 1 <= MinuteOf(k, h, mi) < m + 1 + HORIZON
  {
  }

  /** The last minute of 2096: the next 1830 days hold no 29 February, 2100 not being leap. */
  ghost function EndOf2096(): int { (YearStart(2097) - UNIX_EPOCH) * MINUTES_PER_DAY - 1 }

  lemma NoLeapDayFrom2097(d: Date)
    requires ValidDate(d) && YearStart(2097) <= DayNumber(d) < YearStart(2097) + 1830
    ensures !IsLeap(d.year)
  {
    WithinYear(d);
    if d.year < 2097 { YearMonotone(d.year + 1, 2097); }
    if d.year > 2102 { YearMonotone(2103, d.year); }
  }

  /** In a common year a schedule that admits only 29 February does not fire. */
  lemma CommonYearRefused(c: Cron, n: int)
    requires !AdmitsYearlyDate(c) && !IsLeap(CivilDate(n).year)
    ensures !(c.month.Contains(CivilDate(n).month) && DayMatches(c, n))
  {
    var d := CivilDate(n);
    assert 1 <= d.day <= MonthLength(false, d.month);
  }

  lemma LeapDayOnlyStops(c: Cron)
    requires !AdmitsYearlyDate(c)
    ensures NoMatch(Fires(c), EndOf2096() + 1)
  {
    var start := EndOf2096() + 1;
    forall u | start <= u < start + HORIZON ensures !Fires(c)(u) {
      var n := DayOf(u);
      assert YearStart(2097) <= n < YearStart(2097) + 1830;
      NoLeapDayFrom2097(CivilDate(n));
      CommonYearRefused(c, n);
    }
  }

  /** A schedule for midnight on 29 February and nothing else. */
  ghost predicate OnlyLeapDays(c: Cron) {
    && c.dow.isStar && !c.dom.isStar && c.minute.Contains(0) && c.hour.Contains(0)
    && forall b: nat :: b < 64 ==> (c.dom.Contains(b) <==> b == 29) && (c.month.Contains(b) <==> b == 2)
  }

  /** Between the last days of February 2099 and 2104 there is one leap day. */
  lemma LeapDayOf2104(d: Date, leap: Date)
    requires ValidDate(d) && d.month == 2 && d.day == 29 && leap == Date(2104, 2, 29)
    requires DayNumber(leap) - 1830 <= DayNumber(d) <= DayNumber(leap)
    ensures d == leap
  {
    WithinYear(d);
    if d.year < 2099 { YearMonotone(d.year + 1, 2099); }
    if d.year > 2104 { YearMonotone(2105, d.year); }
    assert d.year == 2104;
  }

  lemma LeapDayMinute(c: Cron, u: int, leap: Date, t: int)
    requires OnlyLeapDays(c) && leap == Date(2104, 2, 29) && t == MinuteOf(DayNumber(leap), 0, 0)
    requires t - 2635200 <= u < t
    ensures !Matches(c, u)
  {
    var d, h, mi := MinuteHasDate(u);
    FiresOnDate(c, d, h, mi);
    if d.month == 2 && d.day == 29 { LeapDayOf2104(d, leap); }
  }

  lemma LeapDayFires(c: Cron, leap: Date, t: int)
    requires OnlyLeapDays(c) && leap == Date(2104, 2, 29) && t == MinuteOf(DayNumber(leap), 0, 0)
    ensures Matches(c, t)
  {
    FiresOnDate(c, leap, 0, 0);
  }

  /** The search looks exactly 2,635,200 minutes ahead: from that long before the
      leap day of 2104 it is found, from a minute earlier it is not. */
  lemma HorizonIsExact(c: Cron, leap: Date, t: int)
    requires OnlyLeapDays(c) && leap == Date(2104, 2, 29) && t == MinuteOf(DayNumber(leap), 0, 0)
    ensures Next(Fires(c), t - 2635200) == Some(t) && Next(Fires(c), t - 2635201) == None
  {
    var fires := Fires(c);
    assert fires(t) by { LeapDayFires(c, leap, t); }
    forall u | t - 2635200 <= u < t ensures !fires(u) { LeapDayMinute(c, u, leap, t); }
    FoundAtHorizon(fires, t);
  }

  lemma FoundAtHorizon(fires: int -> bool, t: int)
    requires fires(t) && forall u :: t - 2635200 <= u < t ==> !fires(u)
    ensures Next(fires, t - 2635200) == Some(t) && Next(fires, t - 2635201) == None
  {
    FirstIsNext(fires, t - 2635200, t);
    NoneIsNext(fires, t - 2635201);
  }

  /**
   An accepted schedule has a next occurrence from every minute exactly when it
   admits some date other than 29 February.
   */
  lemma RecursIffAdmitsYearlyDate(c: Cron)
    requires Accepted(c)
    ensures (forall m :: Next(Fires(c), m).Some?) <==> AdmitsYearlyDate(c)
  {
    if AdmitsYearlyDate(c) {
      forall m ensures Next(Fires(c), m).Some? { RecursFrom(c, m); }
    } else {
      LeapDayOnlyStops(c);
      NoneIsNext(Fires(c), EndOf2096());
    }
  }

  /** So its iteration never ends: `n` calls give `n` occurrences. */
  lemma RecurringNeverEnds(c: Cron, m: int, n: nat)
    requires Accepted(c) && AdmitsYearlyDate(c)
    ensures |Occurrences(Fires(c), m, n)| == n
  {
    RecursIffAdmitsYearlyDate(c);
    EndlessOccurrences(Fires(c), m, n);
  }
}
