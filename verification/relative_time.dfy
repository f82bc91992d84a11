/** Relative-time labels (relativeTime.ts): how long ago a time in
    milliseconds was, in Hebrew, measured from a clock reading `now`. */
module RelativeTime {
  import opened Text

  const Now := "עכשיו"
  const OneMinute := "לפני דקה"
  const OneHour := "לפני שעה"
  const Yesterday := "אתמול"
  const OverAWeek := "לפני יותר משבוע"

  function Ago(n: nat, unit: string): string {
    "לפני " + NatToString(n) + " " + unit
  }

  /** `formatRelativeTime(millis)` with `Date.now()` as `now`: whole
      seconds, minutes, hours and days elapsed, each rounded down, and the
      first bucket that fits. Every bucket is stated on the elapsed
      milliseconds alone. */
  function FormatRelativeTime(millis: int, now: int): (r: string)
    ensures var e := now - millis;
      && (e < 10000 ==> r == Now)
      && (10000 <= e < 60000 ==> r == Ago(e / 1000, "שניות"))
      && (60000 <= e < 120000 ==> r == OneMinute)
      && (120000 <= e < 3600000 ==> r == Ago(e / 60000, "דקות"))
      && (3600000 <= e < 7200000 ==> r == OneHour)
      && (7200000 <= e < 86400000 ==> r == Ago(e / 3600000, "שעות"))
      && (86400000 <= e < 172800000 ==> r == Yesterday)
      && (172800000 <= e < 604800000 ==> r == Ago(e / 86400000, "ימים"))
      && (604800000 <= e ==> r == OverAWeek)
  {
    var sec := (now - millis) / 1000;
    ElapsedUnits(now - millis);
    if sec < 10 then Now
    else if sec < 60 then Ago(sec, "שניות")
    else
      var min := sec / 60;
      if min == 1 then OneMinute
      else if min < 60 then Ago(min, "דקות")
      else
        var hour := min / 60;
        if hour == 1 then OneHour
        else if hour < 24 then Ago(hour, "שעות")
        else
          var day := hour / 24;
          if day == 1 then Yesterday
          else if day < 7 then Ago(day, "ימים")
          else OverAWeek
  }

  /** Rounding down step by step is rounding down once. */
  lemma ElapsedUnits(e: int)
    ensures e / 1000 / 60 == e / 60000
    ensures e / 1000 / 60 / 60 == e / 3600000
    ensures e / 1000 / 60 / 60 / 24 == e / 86400000
  {
  }

  /** The label depends only on the time elapsed. */
  lemma ShiftInvariant(millis: int, now: int, k: int)
    ensures FormatRelativeTime(millis + k, now + k) == FormatRelativeTime(millis, now)
  {
  }

  /** "now" is shown exactly while fewer than ten seconds have passed,
      including for times in the future, and "more than a week" exactly
      from seven days on. */
  lemma NowAndWeekExactly(millis: int, now: int)
    ensures FormatRelativeTime(millis, now) == Now <==> now - millis < 10000
    ensures FormatRelativeTime(millis, now) == OverAWeek <==> now - millis >= 604800000
  {
    var e := now - millis;
    var r := FormatRelativeTime(millis, now);
    assert Now[0] == 'ע' && OverAWeek[0] == 'ל' && OverAWeek[5] == 'י';
    if 10000 <= e < 60000 {
      AgoShape(e / 1000, "שניות");
    } else if 120000 <= e < 3600000 {
      AgoShape(e / 60000, "דקות");
    } else if 7200000 <= e < 86400000 {
      AgoShape(e / 3600000, "שעות");
    } else if 172800000 <= e < 604800000 {
      AgoShape(e / 86400000, "ימים");
    } else if 60000 <= e < 120000 {
      assert r[0] == 'ל' && r[5] == 'ד';
    } else if 3600000 <= e < 7200000 {
      assert r[0] == 'ל' && r[5] == 'ש';
    } else if 86400000 <= e < 172800000 {
      assert r[0] == 'א';
    }
  }

  /** A count label starts with "לפני " and then a digit. */
  lemma AgoShape(n: nat, unit: string)
    ensures Ago(n, unit)[0] == 'ל' && IsDigit(Ago(n, unit)[5])
  {
  }
}
