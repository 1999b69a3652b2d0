/** Monday-to-Sunday week ranges on the server. A date is a day number: the
    count of days since 1970-01-01, which was a Thursday. */
module DateHelpers {

  /** `Date.prototype.getDay`: 0 for Sunday, 1 for Monday, ..., 6 for Saturday. */
  function Weekday(date: int): (r: int)
    ensures 0 <= r < 7
  {
    (date + 4) % 7
  }

  datatype WeekRange = WeekRange(startDate: int, endDate: int)

  /** `getWeekRange`: step back to the Monday of the date's week (six days
      for a Sunday) and end six days after it. */
  function GetWeekRange(date: int): (r: WeekRange)
    ensures Weekday(r.startDate) == 1
    ensures r.startDate == date - (Weekday(date) + 6) % 7
    ensures r.startDate <= date <= r.endDate && r.endDate == r.startDate + 6
  {
    var day := Weekday(date);
    var diff := date - day + (if day == 0 then -6 else 1);
    WeekdayShift(date, diff);
    WeekRange(diff, diff + 6)
  }

  /** The day `diff` computed by `getWeekRange` is a Monday. */
  lemma {:induction false} WeekdayShift(date: int, diff: int)
    requires diff == date - Weekday(date) + (if Weekday(date) == 0 then -6 else 1)
    ensures Weekday(diff) == 1
  {
    var q := (date + 4) / 7;
    assert date + 4 == 7 * q + Weekday(date);
    var base := if Weekday(date) == 0 then 7 * (q - 1) else 7 * q;
    assert diff + 4 == base + 1;
    assert base % 7 == 0 by {
      assert base == 7 * (if Weekday(date) == 0 then q - 1 else q);
    }
  }

  /** Two days with the same weekday lie a whole number of weeks apart. */
  lemma {:induction false} SameWeekdayWholeWeeks(a: int, b: int)
    requires Weekday(a) == Weekday(b) && b <= a < b + 7
    ensures a == b
  {
    var qa, qb := (a + 4) / 7, (b + 4) / 7;
    assert a + 4 == 7 * qa + Weekday(a);
    assert b + 4 == 7 * qb + Weekday(b);
    assert a - b == 7 * (qa - qb);
  }

  /** The start of a date's week is the latest Monday on or before it, and a
      Sunday belongs to the week that began six days earlier. */
  lemma {:induction false} WeekStartIsLatestMonday(date: int, monday: int)
    requires Weekday(monday) == 1 && monday <= date
    ensures monday <= GetWeekRange(date).startDate
    ensures Weekday(date) == 0 ==> GetWeekRange(date).startDate == date - 6
  {
    var start := GetWeekRange(date).startDate;
    if monday > start {
      // Both are Mondays, and `monday` lies in [start, start + 6].
      SameWeekdayWholeWeeks(monday, start);
    }
  }

  /** Every day of a week has that same week as its range. */
  lemma {:induction false} SameWeekSameRange(date: int, other: int)
    requires GetWeekRange(date).startDate <= other <= GetWeekRange(date).endDate
    ensures GetWeekRange(other) == GetWeekRange(date)
  {
    var s1, s2 := GetWeekRange(date).startDate, GetWeekRange(other).startDate;
    if s1 <= s2 {
      SameWeekdayWholeWeeks(s2, s1);
    } else {
      SameWeekdayWholeWeeks(s1, s2);
    }
  }

  /** `getNextWeekRange`: the day after the current end, through six days
      later. The current start is not used. */
  function GetNextWeekRange(currentStartDate: int, currentEndDate: int): (r: WeekRange)
    ensures r.startDate == currentEndDate + 1 && r.endDate == r.startDate + 6
  {
    var nextStartDate := currentEndDate + 1;
    var nextEndDate := nextStartDate + 6;
    WeekRange(nextStartDate, nextEndDate)
  }

  /** The next range depends only on the current end date. */
  lemma {:induction false} NextWeekIgnoresStart(start1: int, start2: int, endDate: int)
    ensures GetNextWeekRange(start1, endDate) == GetNextWeekRange(start2, endDate)
  {
  }

  /** After a week computed by `getWeekRange` comes the week of the date
      seven days later. */
  lemma {:induction false} NextWeekFollows(date: int)
    ensures var w := GetWeekRange(date);
      GetNextWeekRange(w.startDate, w.endDate) == GetWeekRange(date + 7)
  {
    var w := GetWeekRange(date);
    assert Weekday(date + 7) == Weekday(date) by {
      var q := (date + 4) / 7;
      assert date + 4 == 7 * q + Weekday(date);
      assert date + 7 + 4 == 7 * (q + 1) + Weekday(date);
    }
  }
}
