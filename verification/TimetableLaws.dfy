/**
 What a timetable and a closure say in plain terms (internal/recommendation/engine.go:324-464):
 which rule overrides which, the seven days of a week, one daily rule, the two kinds of closure.
 */
module TimetableLaws {
  import opened Wrappers
  import opened Calendar
  import opened OpeningHours

  // ---------- which rules override which ----------

  predicate NamesDay(p: Period, day: int) {
    p.day == Named(WeekdayOf(day), true)
  }

  /** A weekday rule from Monday (1) to Friday (5), a weekend rule on Saturday (6) and Sunday (0). */
  predicate GroupsDay(p: Period, day: int) {
    || (p.day == Weekday && WeekdayOf(day) in {1, 2, 3, 4, 5})
    || (p.day == Weekend && WeekdayOf(day) in {0, 6})
  }

  /** The rules that decide the day: those naming it, else those for its group, else the daily ones. */
  ghost predicate Decides(hours: seq<Period>, day: int, p: Period) {
    && p in hours
    && if exists q :: q in hours && NamesDay(q, day) then NamesDay(p, day)
       else if exists q :: q in hours && GroupsDay(q, day) then GroupsDay(p, day)
       else p.day == Daily
  }

  lemma SpecificRulesOverride(hours: seq<Period>, day: int)
    ensures forall p :: p in MatchingHours(hours, day)
                   <==> Decides(hours, day, p) && !exists q :: Decides(hours, day, q) && q.closed
  {
    MatchingHoursMeaning(hours, day);
    hide MatchingHours;
    forall p
      ensures MostSpecific(hours, day, p) <==> Decides(hours, day, p)
    {
      if exists q :: q in hours && NamesDay(q, day) {
        var q :| q in hours && NamesDay(q, day);
        assert DayMatches(q.day, day);
      } else if exists q :: q in hours && GroupsDay(q, day) {
        var q :| q in hours && GroupsDay(q, day);
        assert DayMatches(q.day, day);
      }
    }
  }

  /** A rule that closes the named day closes the place for the whole of it, whatever other rules say. */
  lemma NamedClosureWins(hours: seq<Period>, day: int, q: Period)
    requires q in hours && NamesDay(q, day) && q.closed
    ensures MatchingHours(hours, day) == []
  {
    hide MatchingHours;
    assert MatchingHours(hours, day) == [] || MatchingHours(hours, day)[0] in MatchingHours(hours, day);
    SpecificRulesOverride(hours, day);
    assert Decides(hours, day, q);
  }

  /** Day 0, 1970-01-01, is a Thursday, weekdays repeat every seven days, and a rule matches exactly the days it names. */
  lemma WeekIsCovered(day: int, dow: int)
    requires 0 <= dow <= 6
    ensures DayMatches(Named(4, true), 0)
    ensures DayMatches(Named(dow, true), day) <==> DayMatches(Named((dow + 1) % 7, true), day + 1)
    ensures DayMatches(Weekday, day) <==> exists k :: 1 <= k <= 5 && DayMatches(Named(k, true), day)
    ensures DayMatches(Weekend, day) <==> !DayMatches(Weekday, day)
    ensures DayMatches(Daily, day)
    ensures !DayMatches(Named(dow, false), day) && !DayMatches(OtherDay, day)
  {
    assert DayMatches(Named(WeekdayOf(day), true), day);
  }

  // ---------- one daily rule ----------

  /**
   "Daily from opens to closes": open from opens up to closes when that is later in the day;
   otherwise from opens to closes of the next day, so also in the small hours up to closes.
   */
  lemma DailyRule(opens: Clock, closes: Clock, at: int)
    requires opens.minute < MINUTES_PER_DAY && opens.minute != closes.minute
    ensures var hours := [Period(Daily, Some(opens), Some(closes), false)];
            var midnight := at - at % 1440;
            var minute := at % 1440;
            LatestClose(hours, at)
            == if opens.minute < closes.minute then
                 (if opens.minute <= minute < closes.minute then Some(midnight + closes.minute) else None)
               else
                 (if opens.minute <= minute then Some(midnight + 1440 + closes.minute)
                  else if minute < closes.minute then Some(midnight + closes.minute)
                  else None)
  {
    var p := Period(Daily, Some(opens), Some(closes), false);
    hide LatestClose, CloseOf, DayOf;
    DailyAnswer(p, at);
    CloseOfBranches(p, at);
  }

  lemma DailyAnswer(p: Period, at: int)
    requires p.day == Daily && !p.closed
    ensures LatestClose([p], at) == Later(CloseOf(p, DayOf(at), at), CloseOf(p, DayOf(at) - 1, at))
  {
    hide MatchingHours, LatestOf, CloseOf, DayOf;
    OneRule(p, DayOf(at));
    OneRule(p, DayOf(at) - 1);
    OneLatest(p, DayOf(at), at);
    OneLatest(p, DayOf(at) - 1, at);
  }

  lemma OneRule(p: Period, day: int)
    requires p.day == Daily && !p.closed
    ensures MatchingHours([p], day) == [p]
  {
    assert [p][..0] == [];
    assert TopSpecificity([], day) == -1 && TopSpecificity([p], day) == Specificity(Daily);
    assert RulesAt([], day, Specificity(Daily)) == [] && RulesAt([p], day, Specificity(Daily)) == [p];
  }

  lemma OneLatest(p: Period, day: int, at: int)
    ensures LatestOf([p], day, at) == CloseOf(p, day, at)
  {
    assert [p][..0] == [];
    assert LatestOf([], day, at) == None;
  }

  // ---------- every week is the same ----------

  lemma WindowsMove(p: Period, day: int, at: int)
    ensures CloseOf(p, day + 7, at + 7 * MINUTES_PER_DAY)
         == (if CloseOf(p, day, at).None? then None else Some(CloseOf(p, day, at).value + 7 * MINUTES_PER_DAY))
  {
  }

  lemma {:induction false} LatestMoves(rules: seq<Period>, day: int, at: int)
    ensures LatestOf(rules, day + 7, at + 7 * MINUTES_PER_DAY)
         == (if LatestOf(rules, day, at).None? then None else Some(LatestOf(rules, day, at).value + 7 * MINUTES_PER_DAY))
  {
    if rules != [] {
      LatestMoves(rules[..|rules| - 1], day, at);
      WindowsMove(rules[|rules| - 1], day, at);
      hide CloseOf;
    }
  }

  /** A week later the timetable gives the same answer, a week later. */
  lemma EveryWeekAlike(hours: seq<Period>, at: int)
    ensures LatestClose(hours, at + 7 * MINUTES_PER_DAY)
         == (if LatestClose(hours, at).None? then None else Some(LatestClose(hours, at).value + 7 * MINUTES_PER_DAY))
  {
    hide MatchingHours, LatestOf, WeekdayOf;
    var day := DayOf(at);
    assert DayOf(at + 7 * MINUTES_PER_DAY) == day + 7;
    RulesMove(hours, day);
    RulesMove(hours, day - 1);
    LatestMoves(MatchingHours(hours, day), day, at);
    LatestMoves(MatchingHours(hours, day - 1), day - 1, at);
  }

  lemma RulesMove(hours: seq<Period>, day: int)
    ensures MatchingHours(hours, day + 7) == MatchingHours(hours, day)
  {
    RulesRepeatWeekly(hours, day, day + 7, TopSpecificity(hours, day));
  }

  // ---------- closures ----------

  /** A one-time closure covers its first and last day and every day between, and no other. */
  lemma OneTimeIsInterval(first: int, last: int, day: int, reason: string)
    ensures ClosedOn(OneTime(DateOf(first), DateOf(last), reason), DateOf(day)) <==> first <= day <= last
  {
    DaysCompare(first, day);
    DaysCompare(day, last);
  }

  lemma DaysCompare(a: int, b: int)
    ensures DateAtMost(DateOf(a), DateOf(b)) <==> a <= b
  {
    if a < b { DatesFollowDays(a, b); }
    if b < a { DatesFollowDays(b, a); }
  }

  /**
   An annual closure covers its two end dates and what lies between them going forward: up
   to the end of the same year, or over New Year when the end comes first in the calendar.
   */
  lemma AnnualClosesBetween(first: MonthDayText, last: MonthDayText, date: Date, reason: string)
    requires ValidDate(date) && IsMonthDay(first) && IsMonthDay(last)
    ensures var f, l, d := (first.month, first.day), (last.month, last.day), (date.month, date.day);
            ClosedOn(Annual(first, last, reason), date)
            <==> if NotAfter(f, l) then NotAfter(f, d) && NotAfter(d, l) else NotAfter(f, d) || NotAfter(d, l)
  {
    ValidatedMonthDaysParse(first);
    ValidatedMonthDaysParse(last);
    AnnualTestMeaning(first, last, date);
  }

  /** By month, then by day. */
  predicate NotAfter(a: (int, int), b: (int, int)) {
    a.0 < b.0 || (a.0 == b.0 && a.1 <= b.1)
  }
}
