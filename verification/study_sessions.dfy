/** Study sessions: the one session per day that records how many of the
    day's tasks were done, and the streak of completed days. Dates are day
    numbers. */
module StudySessions {
  import opened Common

  datatype Session = Session(date: int, tasksAvailable: int, tasksCompleted: int, isCompleteDay: bool)

  /** `create_study_session`: today's session is created with the number
      of tasks scheduled for today, or updated; either way the completed
      count is the one posted, and the day counts as complete once some
      task was scheduled and at least that many are done. A complete day
      is never reset. */
  function RecordSession(existing: Option<Session>, today: int, scheduledToday: nat, completed: int): (s: Session)
    ensures s.tasksCompleted == completed
    ensures existing.None? ==> s.date == today && s.tasksAvailable == scheduledToday
    ensures existing.Some? ==> s.date == existing.value.date && s.tasksAvailable == existing.value.tasksAvailable
    ensures s.isCompleteDay <==>
      (existing.Some? && existing.value.isCompleteDay) || (s.tasksAvailable > 0 && completed >= s.tasksAvailable)
  {
    var base := match existing
      case None => Session(today, scheduledToday, completed, false)
      case Some(x) => x.(tasksCompleted := completed);
    if base.tasksAvailable > 0 && base.tasksCompleted >= base.tasksAvailable then base.(isCompleteDay := true)
    else base
  }

  /** Posting twice keeps the second count, not the sum, and a day once
      complete stays complete. */
  lemma RecordOverwrites(existing: Option<Session>, today: int, scheduledToday: nat, c1: int, c2: int)
    ensures var s1 := RecordSession(existing, today, scheduledToday, c1);
      var s2 := RecordSession(Some(s1), today, scheduledToday, c2);
      && s2.tasksCompleted == c2 && s2.tasksAvailable == s1.tasksAvailable
      && (s1.isCompleteDay ==> s2.isCompleteDay)
  {
  }

  /** `get_study_streak` as written, over the dates of the complete days,
      latest first: a session counts when it falls on the expected day or
      the day before, and the expected day then moves to the day before
      that session. */
  function StreakFrom(dates: seq<int>, expected: int): (n: nat)
    ensures n <= |dates|
    ensures n > 0 ==> dates[0] == expected || dates[0] == expected - 1
    ensures forall i :: 0 <= i < n - 1 ==> dates[i + 1] == dates[i] - 1 || dates[i + 1] == dates[i] - 2
    ensures n < |dates| ==> !(dates[n] == (if n == 0 then expected else dates[n - 1] - 1) ||
                              dates[n] == (if n == 0 then expected else dates[n - 1] - 1) - 1)
  {
    if dates == [] then 0
    else if dates[0] == expected || dates[0] == expected - 1 then 1 + StreakFrom(dates[1..], dates[0] - 1)
    else 0
  }

  function StreakAsWritten(dates: seq<int>, today: int): (n: nat)
    ensures dates == [] ==> n == 0
    ensures n <= |dates|
    ensures n > 0 ==> dates[0] == today || dates[0] == today - 1
  {
    StreakFrom(dates, today)
  }

  /** The loop of `get_study_streak`, with its early exit, computes the
      streak as written. */
  method StreakLoop(dates: seq<int>, today: int) returns (streak: nat)
    ensures streak == StreakAsWritten(dates, today)
  {
    if |dates| == 0 {
      return 0;
    }
    streak := 0;
    var current := today;
    var i := 0;
    while i < |dates|
      invariant 0 <= i <= |dates| && streak == i
      invariant streak + StreakFrom(dates[i..], current) == StreakFrom(dates, today)
    {
      var d := dates[i];
      assert dates[i..][1..] == dates[i + 1..];
      if d == current || d == current - 1 {
        streak := streak + 1;
        current := d - 1;
      } else {
        break;
      }
      i := i + 1;
    }
  }

  /** A latest complete day older than yesterday breaks the streak. */
  lemma StaleStreakIsZero(dates: seq<int>, today: int)
    requires dates != [] && dates[0] < today - 1
    ensures StreakAsWritten(dates, today) == 0
  {
  }

  /** A gap of one day is not noticed: complete days today and two days
      ago count as a streak of two. */
  lemma {:induction false} StreakAsWrittenSkipsGap(today: int)
    ensures StreakAsWritten([today, today - 2], today) == 2
  {
    assert [today, today - 2][1..] == [today - 2];
    assert [today - 2][1..] == [];
  }

  /** The streak as intended: the latest complete day is today or
      yesterday, and each further one is exactly the day before the one
      counted last. */
  function Run(dates: seq<int>, expected: int): (n: nat)
    ensures n <= |dates|
    ensures forall i :: 0 <= i < n ==> dates[i] == expected - i
    ensures n < |dates| ==> dates[n] != expected - n
  {
    if dates != [] && dates[0] == expected then 1 + Run(dates[1..], expected - 1) else 0
  }

  function Streak(dates: seq<int>, today: int): (n: nat)
    ensures n <= |dates|
    ensures n > 0 ==> dates[0] == today || dates[0] == today - 1
    ensures forall i :: 0 <= i < n ==> dates[i] == dates[0] - i
    ensures dates != [] && (dates[0] == today || dates[0] == today - 1) ==> n >= 1
    ensures 0 < n < |dates| ==> dates[n] != dates[0] - n
  {
    if dates != [] && (dates[0] == today || dates[0] == today - 1) then 1 + Run(dates[1..], dates[0] - 1)
    else 0
  }

  /** The intended streak never exceeds the one as written, and the two
      agree when the complete days have no gaps. */
  lemma {:induction false} StreakBelowAsWritten(dates: seq<int>, expected: int)
    ensures Run(dates, expected) <= StreakFrom(dates, expected)
    ensures (forall i :: 0 <= i < |dates| ==> dates[i] == expected - i) ==>
      Run(dates, expected) == StreakFrom(dates, expected) == |dates|
  {
    if dates != [] && dates[0] == expected {
      StreakBelowAsWritten(dates[1..], expected - 1);
    }
  }

  lemma {:induction false} StreakAgreesWithoutGaps(dates: seq<int>, today: int)
    ensures Streak(dates, today) <= StreakAsWritten(dates, today)
    ensures dates != [] && (forall i :: 0 <= i < |dates| ==> dates[i] == dates[0] - i) ==>
      Streak(dates, today) == StreakAsWritten(dates, today)
  {
    if dates != [] && (dates[0] == today || dates[0] == today - 1) {
      StreakBelowAsWritten(dates[1..], dates[0] - 1);
    }
  }
}
