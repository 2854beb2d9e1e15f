/**
 Timetables and closures (internal/recommendation/engine.go:317-464).

 The engine looks at two days only and keeps the latest closing time it meets. Its
 meaning, proved here, is about all days: each day contributes the windows of its most
 specific rules, and an instant is open when some window of some day contains it.
 */
module OpeningHours {
  import opened Wrappers
  import opened Calendar

  type Minute = m: int | 0 <= m <= MINUTES_PER_DAY

  /** A clock text that parses. Before 10:00 there are two texts for a minute: "9:00" and "09:00". */
  datatype ClockText = Clock(minute: Minute, padded: bool)

  type Clock = c: ClockText | c.padded || c.minute < 600 witness Clock(0, true)

  /**
   A day rule. A named weekday is only recognised when its text has no surrounding blanks;
   the three group names are recognised either way. OtherDay is any other text.
   */
  datatype DayRule = Daily | Weekday | Weekend | Named(dow: int, bare: bool) | OtherDay

  /** opens and closes are None when the text is not a clock. */
  datatype Period = Period(day: DayRule, opens: Option<Clock>, closes: Option<Clock>, closed: bool)

  predicate DayMatches(rule: DayRule, day: int) {
    match rule
    case Daily => true
    case Weekday => 1 <= WeekdayOf(day) <= 5
    case Weekend => WeekdayOf(day) == 6 || WeekdayOf(day) == 0
    case Named(dow, bare) => bare && dow == WeekdayOf(day)
    case OtherDay => false
  }

  function Specificity(rule: DayRule): int {
    match rule
    case Daily => 1
    case Weekday => 2
    case Weekend => 2
    case Named(_, _) => 3
    case OtherDay => 3
  }

  // ---------- the rules in force on a day ----------

  /** The highest specificity among the rules that match the day, -1 if none does. */
  function TopSpecificity(hours: seq<Period>, day: int): int {
    if hours == [] then -1
    else
      var last := hours[|hours| - 1];
      var rest := TopSpecificity(hours[..|hours| - 1], day);
      if DayMatches(last.day, day) && Specificity(last.day) > rest then Specificity(last.day) else rest
  }

  function RulesAt(hours: seq<Period>, day: int, specificity: int): seq<Period> {
    if hours == [] then []
    else
      var last := hours[|hours| - 1];
      RulesAt(hours[..|hours| - 1], day, specificity)
      + if DayMatches(last.day, day) && Specificity(last.day) == specificity then [last] else []
  }

  predicate AnyClosed(rules: seq<Period>) {
    exists p | p in rules :: p.closed
  }

  function MatchingHours(hours: seq<Period>, day: int): seq<Period> {
    var rules := RulesAt(hours, day, TopSpecificity(hours, day));
    if AnyClosed(rules) then [] else rules
  }

  /** p is one of the most specific rules of the day. */
  ghost predicate MostSpecific(hours: seq<Period>, day: int, p: Period) {
    && p in hours && DayMatches(p.day, day)
    && forall q | q in hours && DayMatches(q.day, day) :: Specificity(q.day) <= Specificity(p.day)
  }

  lemma {:induction false} TopSpecificityIsMaximum(hours: seq<Period>, day: int)
    ensures forall q | q in hours && DayMatches(q.day, day) :: Specificity(q.day) <= TopSpecificity(hours, day)
    ensures TopSpecificity(hours, day) == -1
            || exists p :: MostSpecific(hours, day, p) && Specificity(p.day) == TopSpecificity(hours, day)
  {
    if hours != [] {
      var n := |hours| - 1;
      assert hours == hours[..n] + [hours[n]];
      TopSpecificityIsMaximum(hours[..n], day);
      var top, rest := TopSpecificity(hours, day), TopSpecificity(hours[..n], day);
      if top != rest {
        assert MostSpecific(hours, day, hours[n]);
      } else if rest != -1 {
        var p :| MostSpecific(hours[..n], day, p) && Specificity(p.day) == rest;
        assert MostSpecific(hours, day, p);
      }
    }
  }

  lemma {:induction false} RulesAtMembers(hours: seq<Period>, day: int, specificity: int)
    ensures forall p :: p in RulesAt(hours, day, specificity)
                   <==> p in hours && DayMatches(p.day, day) && Specificity(p.day) == specificity
  {
    if hours != [] {
      var n := |hours| - 1;
      assert hours == hours[..n] + [hours[n]];
      RulesAtMembers(hours[..n], day, specificity);
    }
  }

  /** The rules in force: the most specific ones, and none at all if one of those is closed. */
  lemma MatchingHoursMeaning(hours: seq<Period>, day: int)
    ensures forall p :: p in MatchingHours(hours, day)
                   <==> MostSpecific(hours, day, p) && !exists q :: MostSpecific(hours, day, q) && q.closed
  {
    var top := TopSpecificity(hours, day);
    var rules := RulesAt(hours, day, top);
    TopSpecificityIsMaximum(hours, day);
    RulesAtMembers(hours, day, top);
    forall p
      ensures p in rules <==> MostSpecific(hours, day, p)
    {
      if MostSpecific(hours, day, p) && top != -1 {
        var best :| MostSpecific(hours, day, best) && Specificity(best.day) == top;
        assert Specificity(p.day) == top;
      }
    }
  }

  method MatchingOperatingHours(hours: seq<Period>, day: int) returns (matched: seq<Period>)
    ensures matched == MatchingHours(hours, day)
  {
    matched := [];
    var maximumSpecificity := -1;
    for i := 0 to |hours|
      invariant maximumSpecificity == TopSpecificity(hours[..i], day)
      invariant matched == RulesAt(hours[..i], day, maximumSpecificity)
    {
      var period := hours[i];
      assert hours[..i + 1][..i] == hours[..i];
      if DayMatches(period.day, day) {
        var specificity := Specificity(period.day);
        if specificity > maximumSpecificity {
          NothingAbove(hours[..i], day, specificity);
          matched := [];
          maximumSpecificity := specificity;
        }
        if specificity == maximumSpecificity {
          matched := matched + [period];
        }
      }
    }
    assert hours[..|hours|] == hours;
    for j := 0 to |matched|
      invariant !AnyClosed(matched[..j])
    {
      assert matched[..j + 1] == matched[..j] + [matched[j]];
      if matched[j].closed {
        assert AnyClosed(matched);
        return [];
      }
    }
    assert matched[..|matched|] == matched;
  }

  lemma {:induction false} NothingAbove(hours: seq<Period>, day: int, specificity: int)
    requires specificity > TopSpecificity(hours, day)
    ensures RulesAt(hours, day, specificity) == []
  {
    if hours != [] {
      NothingAbove(hours[..|hours| - 1], day, specificity);
    }
  }

  // ---------- windows, and the meaning of being open ----------

  datatype Window = Window(start: int, end: int)

  /** The window of a rule on a day; an overnight rule runs into the next day. */
  function WindowOf(p: Period, day: int): Option<Window> {
    if p.opens.None? || p.closes.None? || p.opens.value.minute == p.closes.value.minute then None
    else
      var opens, closes := p.opens.value.minute, p.closes.value.minute;
      var midnight := day * MINUTES_PER_DAY;
      Some(Window(midnight + opens, midnight + closes + if opens > closes then MINUTES_PER_DAY else 0))
  }

  predicate Contains(w: Option<Window>, at: int) {
    w.Some? && w.value.start <= at < w.value.end
  }

  /** Rule p of the given day keeps the place open at `at` until close. */
  ghost predicate Covers(hours: seq<Period>, day: int, p: Period, at: int, close: int) {
    p in MatchingHours(hours, day) && Contains(WindowOf(p, day), at) && WindowOf(p, day).value.end == close
  }

  ghost predicate OpenUntil(hours: seq<Period>, at: int, close: int) {
    exists day: int, p :: Covers(hours, day, p, at, close)
  }

  /** The answer the timetable gives: the latest end among all windows holding the instant. */
  ghost predicate IsLatestClose(hours: seq<Period>, at: int, r: Option<int>) {
    match r
    case None => forall close :: !OpenUntil(hours, at, close)
    case Some(c) => OpenUntil(hours, at, c) && forall close | OpenUntil(hours, at, close) :: close <= c
  }

  /** Only the day of the instant and the day before can have a window that holds it. */
  lemma TwoDaysSuffice(p: Period, day: int, at: int)
    requires Contains(WindowOf(p, day), at)
    ensures day == DayOf(at) || (day == DayOf(at) - 1 && p.opens.value.minute > p.closes.value.minute)
    ensures 0 < WindowOf(p, day).value.end - at <= MINUTES_PER_DAY
  {
  }

  // ---------- the two-day computation ----------

  function Later(a: Option<int>, b: Option<int>): Option<int> {
    if a.None? then b else if b.None? then a else Some(if a.value < b.value then b.value else a.value)
  }

  function CloseOf(p: Period, day: int, at: int): Option<int> {
    if Contains(WindowOf(p, day), at) then Some(WindowOf(p, day).value.end) else None
  }

  function LatestOf(rules: seq<Period>, day: int, at: int): Option<int> {
    if rules == [] then None
    else Later(LatestOf(rules[..|rules| - 1], day, at), CloseOf(rules[|rules| - 1], day, at))
  }

  function LatestClose(hours: seq<Period>, at: int): Option<int> {
    Later(LatestOf(MatchingHours(hours, DayOf(at)), DayOf(at), at),
          LatestOf(MatchingHours(hours, DayOf(at) - 1), DayOf(at) - 1, at))
  }

  lemma {:induction false} LatestOfMeaning(rules: seq<Period>, day: int, at: int)
    ensures LatestOf(rules, day, at).None? <==> forall p | p in rules :: !Contains(WindowOf(p, day), at)
    ensures LatestOf(rules, day, at).Some? ==>
              && (exists p :: p in rules && CloseOf(p, day, at) == LatestOf(rules, day, at))
              && (forall p | p in rules && CloseOf(p, day, at).Some? ::
                    CloseOf(p, day, at).value <= LatestOf(rules, day, at).value)
  {
    if rules != [] {
      var n := |rules| - 1;
      assert rules == rules[..n] + [rules[n]];
      LatestOfMeaning(rules[..n], day, at);
      var r := LatestOf(rules, day, at);
      if r.Some? {
        if r == CloseOf(rules[n], day, at) {
          assert rules[n] in rules;
        } else {
          var p :| p in rules[..n] && CloseOf(p, day, at) == r;
          assert p in rules;
        }
      }
    }
  }

  lemma LatestCloseBounds(hours: seq<Period>, day: int, p: Period, at: int, close: int)
    requires Covers(hours, day, p, at, close)
    ensures LatestClose(hours, at).Some? && close <= LatestClose(hours, at).value
  {
    hide MatchingHours;
    TwoDaysSuffice(p, day, at);
    LatestOfMeaning(MatchingHours(hours, day), day, at);
    assert CloseOf(p, day, at) == Some(close);
  }

  lemma LatestCloseAttained(hours: seq<Period>, at: int)
    requires LatestClose(hours, at).Some?
    ensures OpenUntil(hours, at, LatestClose(hours, at).value)
    ensures 0 < LatestClose(hours, at).value - at <= MINUTES_PER_DAY
  {
    hide MatchingHours;
    var r := LatestClose(hours, at);
    var day := if r == LatestOf(MatchingHours(hours, DayOf(at)), DayOf(at), at) then DayOf(at) else DayOf(at) - 1;
    var rules := MatchingHours(hours, day);
    LatestOfMeaning(rules, day, at);
    var p :| p in rules && CloseOf(p, day, at) == r;
    assert Covers(hours, day, p, at, r.value);
    TwoDaysSuffice(p, day, at);
  }

  /** The two-day computation answers the all-days question, for every timetable and instant. */
  lemma LatestCloseMeaning(hours: seq<Period>, at: int)
    ensures IsLatestClose(hours, at, LatestClose(hours, at))
    ensures LatestClose(hours, at).Some? ==> 0 < LatestClose(hours, at).value - at <= MINUTES_PER_DAY
  {
    hide LatestClose;
    forall close | OpenUntil(hours, at, close)
      ensures LatestClose(hours, at).Some? && close <= LatestClose(hours, at).value
    {
      var day: int, p :| Covers(hours, day, p, at, close);
      LatestCloseBounds(hours, day, p, at, close);
    }
    if LatestClose(hours, at).Some? {
      LatestCloseAttained(hours, at);
    }
  }

  /** The all-days question has one answer. */
  lemma LatestCloseIsUnique(hours: seq<Period>, at: int, r: Option<int>, s: Option<int>)
    requires IsLatestClose(hours, at, r) && IsLatestClose(hours, at, s)
    ensures r == s
  {
    assert r.Some? ==> OpenUntil(hours, at, r.value);
    assert s.Some? ==> OpenUntil(hours, at, s.value);
  }

  /** Once open, the timetable stays open up to the reported close and never reports an earlier one. */
  lemma OpenThroughClose(hours: seq<Period>, at: int, t: int)
    requires LatestClose(hours, at).Some? && at <= t < LatestClose(hours, at).value
    ensures LatestClose(hours, t).Some? && LatestClose(hours, at).value <= LatestClose(hours, t).value
  {
    LatestCloseMeaning(hours, at);
    LatestCloseMeaning(hours, t);
    var close := LatestClose(hours, at).value;
    var day: int, p :| Covers(hours, day, p, at, close);
    assert Covers(hours, day, p, t, close);
    assert OpenUntil(hours, t, close);
  }

  // ---------- when a timetable opens at all ----------

  /** p is a rule in force on the day: no rule for it is more specific, and none as specific is closed. */
  ghost predicate InForce(hours: seq<Period>, day: int, p: Period) {
    MostSpecific(hours, day, p) && forall q | q in hours && MostSpecific(hours, day, q) :: !q.closed
  }

  lemma {:induction false} RulesRepeatWeekly(hours: seq<Period>, a: int, b: int, specificity: int)
    requires WeekdayOf(a) == WeekdayOf(b)
    ensures TopSpecificity(hours, a) == TopSpecificity(hours, b)
    ensures RulesAt(hours, a, specificity) == RulesAt(hours, b, specificity)
  {
    if hours != [] {
      RulesRepeatWeekly(hours[..|hours| - 1], a, b, specificity);
    }
  }

  lemma InForceMeaning(hours: seq<Period>, day: int)
    ensures forall p :: p in MatchingHours(hours, day) <==> InForce(hours, day, p)
  {
    MatchingHoursMeaning(hours, day);
    hide MatchingHours;
  }

  /** The rule gives some time: its clocks differ, and are not the end of the day and its start. */
  predicate HasTime(p: Period) {
    && p.opens.Some? && p.closes.Some?
    && p.opens.value.minute != p.closes.value.minute
    && (p.opens.value.minute == MINUTES_PER_DAY ==> p.closes.value.minute != 0)
  }

  lemma HasTimeMeaning(p: Period, day: int)
    ensures HasTime(p) <==> exists at :: Contains(WindowOf(p, day), at)
  {
    if HasTime(p) {
      assert Contains(WindowOf(p, day), WindowOf(p, day).value.start);
    }
  }

  /** A timetable opens at some instant exactly when, on some day of one week, a rule in force gives some time. */
  lemma OpensSometimeIff(hours: seq<Period>)
    ensures (exists at :: LatestClose(hours, at).Some?)
       <==> exists day, p :: 0 <= day < 7 && InForce(hours, day, p) && HasTime(p)
  {
    hide LatestClose, WindowOf, HasTime;
    if at :| LatestClose(hours, at).Some? {
      LatestCloseMeaning(hours, at);
      var close := LatestClose(hours, at).value;
      var day: int, p :| Covers(hours, day, p, at, close);
      HasTimeMeaning(p, day);
      SameWeekday(hours, day, p);
    }
    if day, p :| 0 <= day < 7 && InForce(hours, day, p) && HasTime(p) {
      InForceMeaning(hours, day);
      HasTimeMeaning(p, day);
      var at :| Contains(WindowOf(p, day), at);
      var close := WindowOf(p, day).value.end;
      assert Covers(hours, day, p, at, close);
      LatestCloseBounds(hours, day, p, at, close);
    }
  }

  /** A rule in force on a day is in force on the same weekday of the first week. */
  lemma SameWeekday(hours: seq<Period>, day: int, p: Period)
    requires p in MatchingHours(hours, day)
    ensures InForce(hours, day % 7, p)
  {
    RulesRepeatWeekly(hours, day, day % 7, TopSpecificity(hours, day));
    InForceMeaning(hours, day % 7);
  }

  /** The branches of the engine, for the day of the instant and for the day before. */
  lemma CloseOfBranches(p: Period, at: int)
    requires p.opens.Some? && p.closes.Some?
    ensures var opens, closes, minutes := p.opens.value.minute, p.closes.value.minute, MinuteOf(at);
            && CloseOf(p, DayOf(at), at) ==
               (if opens < closes && opens <= minutes < closes then Some(at - minutes + closes)
                else if opens > closes && opens <= minutes then Some(at - minutes + MINUTES_PER_DAY + closes)
                else None)
            && CloseOf(p, DayOf(at) - 1, at) ==
               (if opens > closes && minutes < closes then Some(at - minutes + closes) else None)
  {
  }

  /** The first loop: the rules of the day itself. */
  method LatestToday(matched: seq<Period>, at: int) returns (latestClose: Option<int>)
    ensures latestClose == LatestOf(matched, DayOf(at), at)
  {
    var minutes := MinuteOf(at);
    var startOfDay := at - minutes;
    latestClose := None;
    for i := 0 to |matched|
      invariant latestClose == LatestOf(matched[..i], DayOf(at), at)
    {
      assert matched[..i + 1][..i] == matched[..i];
      var period := matched[i];
      if period.opens.None? || period.closes.None? { continue; }
      var opens, closes := period.opens.value.minute, period.closes.value.minute;
      CloseOfBranches(period, at);
      var closesAt: Option<int> := None;
      if opens < closes && minutes >= opens && minutes < closes {
        closesAt := Some(startOfDay + closes);
      }
      if opens > closes {
        if minutes >= opens {
          closesAt := Some(startOfDay + MINUTES_PER_DAY + closes);
        }
      }
      if closesAt.Some? && (latestClose.None? || latestClose.value < closesAt.value) {
        latestClose := closesAt;
      }
    }
    assert matched[..|matched|] == matched;
  }

  /** The second loop: the overnight rules of the day before. */
  method LatestFromYesterday(previous: seq<Period>, at: int, today: Option<int>) returns (latestClose: Option<int>)
    ensures latestClose == Later(today, LatestOf(previous, DayOf(at) - 1, at))
  {
    var minutes := MinuteOf(at);
    latestClose := today;
    for i := 0 to |previous|
      invariant latestClose == Later(today, LatestOf(previous[..i], DayOf(at) - 1, at))
    {
      assert previous[..i + 1][..i] == previous[..i];
      var period := previous[i];
      if period.opens.None? || period.closes.None? { continue; }
      var opens, closes := period.opens.value.minute, period.closes.value.minute;
      CloseOfBranches(period, at);
      if opens <= closes || minutes >= closes { continue; }
      var closesAt := at - minutes + closes;
      if latestClose.None? || latestClose.value < closesAt {
        latestClose := Some(closesAt);
      }
    }
    assert previous[..|previous|] == previous;
  }

  method OpenUntilAt(hours: seq<Period>, at: int) returns (latestClose: Option<int>)
    ensures IsLatestClose(hours, at, latestClose)
    ensures latestClose == LatestClose(hours, at)
    ensures latestClose.Some? ==> 0 < latestClose.value - at <= MINUTES_PER_DAY
  {
    var matched := MatchingOperatingHours(hours, DayOf(at));
    latestClose := LatestToday(matched, at);
    var previous := MatchingOperatingHours(hours, DayOf(at) - 1);
    latestClose := LatestFromYesterday(previous, at, latestClose);
    LatestCloseMeaning(hours, at);
  }

  // ---------- closures ----------

  /** Month and day as written; they may not name a real date. */
  datatype MonthDayText = MonthDayText(month: int, day: int)

  datatype Closure =
    | OneTime(start: Date, end: Date, reason: string)
    | Annual(first: MonthDayText, last: MonthDayText, reason: string)
    | OtherClosure(reason: string)

  /** The engine parses "MM-DD" in year 0, a leap year. */
  function ParseMonthDayNumber(text: MonthDayText): Option<int> {
    if ValidDate(Date(0, text.month, text.day)) then Some(text.month * 100 + text.day) else None
  }

  /** The catalog validator parses it in year 2000, another leap year. */
  predicate IsMonthDay(text: MonthDayText) {
    ValidDate(Date(2000, text.month, text.day))
  }

  /** No annual period that the validator accepts is skipped when recommending, and no other is used. */
  lemma ValidatedMonthDaysParse(text: MonthDayText)
    ensures IsMonthDay(text) <==> ParseMonthDayNumber(text).Some?
  {
    assert IsLeap(0) && IsLeap(2000);
  }

  /** The annual period as it falls in the year that starts it: it may end in the next year. */
  ghost predicate InYear(first: MonthDayText, last: MonthDayText, year: int, date: Date) {
    var wraps := first.month * 100 + first.day > last.month * 100 + last.day;
    && DateAtMost(Date(year, first.month, first.day), date)
    && DateAtMost(date, Date(if wraps then year + 1 else year, last.month, last.day))
  }

  ghost predicate ClosedOn(c: Closure, date: Date) {
    match c
    case OneTime(start, end, _) =>
      ValidDate(start) && ValidDate(end) && DateAtMost(start, date) && DateAtMost(date, end)
    case Annual(first, last, _) =>
      ParseMonthDayNumber(first).Some? && ParseMonthDayNumber(last).Some? && exists year: int :: InYear(first, last, year, date)
    case OtherClosure(_) => false
  }

  ghost predicate ClosedDay(periods: seq<Closure>, date: Date) {
    exists c :: c in periods && ClosedOn(c, date)
  }

  /** The month * 100 + day arithmetic of the engine. */
  predicate AnnualTest(start: int, end: int, current: int) {
    || (start <= end && start <= current <= end)
    || (start > end && (current >= start || current <= end))
  }

  /** The arithmetic test holds exactly on the dates of the period as expanded year by year. */
  lemma AnnualTestMeaning(first: MonthDayText, last: MonthDayText, date: Date)
    requires ValidDate(date) && ParseMonthDayNumber(first).Some? && ParseMonthDayNumber(last).Some?
    ensures AnnualTest(ParseMonthDayNumber(first).value, ParseMonthDayNumber(last).value, MonthDay(date))
       <==> exists year: int :: InYear(first, last, year, date)
  {
    var start, end := ParseMonthDayNumber(first).value, ParseMonthDayNumber(last).value;
    assert InYear(first, last, date.year, date) || InYear(first, last, date.year - 1, date)
      <==> AnnualTest(start, end, MonthDay(date));
    forall year: int | InYear(first, last, year, date)
      ensures year == date.year || year == date.year - 1
    {
    }
  }

  method IsClosedByPeriod(periods: seq<Closure>, date: Date) returns (closed: bool)
    requires ValidDate(date)
    ensures closed <==> ClosedDay(periods, date)
  {
    for i := 0 to |periods|
      invariant forall c | c in periods[..i] :: !ClosedOn(c, date)
    {
      assert periods[..i + 1] == periods[..i] + [periods[i]];
      match periods[i]
      case OneTime(start, end, _) =>
        if ValidDate(start) && ValidDate(end) && !DateBefore(date, start) && !DateBefore(end, date) {
          assert ClosedOn(periods[i], date);
          return true;
        }
      case Annual(first, last, _) =>
        var currentMonthDay := MonthDay(date);
        var startMonthDay, endMonthDay := ParseMonthDayNumber(first), ParseMonthDayNumber(last);
        if startMonthDay.None? || endMonthDay.None? { continue; }
        AnnualTestMeaning(first, last, date);
        if startMonthDay.value <= endMonthDay.value
           && currentMonthDay >= startMonthDay.value && currentMonthDay <= endMonthDay.value {
          assert ClosedOn(periods[i], date);
          return true;
        }
        if startMonthDay.value > endMonthDay.value
           && (currentMonthDay >= startMonthDay.value || currentMonthDay <= endMonthDay.value) {
          assert ClosedOn(periods[i], date);
          return true;
        }
      case OtherClosure(_) =>
    }
    assert periods[..|periods|] == periods;
    return false;
  }
}
