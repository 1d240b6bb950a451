/** The adaptive learning service: a personalised study speed from the
    learner's pace, subject strength and pre-assessment score, and the
    regenerated schedule of recognition, recall and production days. */
module AdaptiveLearning {
  import opened Common
  import Users
  import opened Models

  /** Items per hour for the self-reported pace; 20 when there is no
      profile or no pace recorded. */
  function BaseSpeed(profile: Option<Users.Profile>): (b: real)
    ensures b == 12.0 || b == 20.0 || b == 30.0
    ensures b == 30.0 <==> profile.Some? && profile.value.selfReportedSpeed == Some(Fast)
    ensures b == 12.0 <==> profile.Some? && profile.value.selfReportedSpeed == Some(Slow)
  {
    if profile.Some? && profile.value.selfReportedSpeed == Some(Fast) then 30.0
    else if profile.Some? && profile.value.selfReportedSpeed == Some(Slow) then 12.0
    else 20.0
  }

  /** The strength on record for a category, 0.5 when none is. */
  function RecordedStrength(profile: Option<Users.Profile>, category: string): real
  {
    if profile.Some? && profile.value.strengths.Some? && category in profile.value.strengths.value
    then profile.value.strengths.value[category]
    else 0.5
  }

  /** Strong subjects go faster, weak ones slower. */
  function StrengthModifier(strength: real): (m: real)
    ensures m == 1.25 <==> strength > 0.7
    ensures m == 0.8 <==> strength < 0.3
    ensures m == 1.0 <==> 0.3 <= strength <= 0.7
  {
    if strength > 0.7 then 1.25 else if strength < 0.3 then 0.8 else 1.0
  }

  /** The subject modifier, which looks the category up only when the
      profile has a non-empty strength map. That test changes nothing: a
      missing strength reads as 0.5, which is neutral. */
  function SubjectModifier(profile: Option<Users.Profile>, category: string): (m: real)
    ensures m == StrengthModifier(RecordedStrength(profile, category))
  {
    if profile.Some? && profile.value.strengths.Some? && profile.value.strengths.value != map[] then
      var s := profile.value.strengths.value;
      StrengthModifier(if category in s then s[category] else 0.5)
    else 1.0
  }

  /** A high pre-assessment score means less new material. */
  function AssessmentModifier(score: real): (m: real)
    ensures m == 1.5 <==> score > 80.0
    ensures m == 1.2 <==> 50.0 < score <= 80.0
    ensures m == 1.0 <==> score <= 50.0
  {
    if score > 80.0 then 1.5 else if score > 50.0 then 1.2 else 1.0
  }

  /** `calculate_personalized_speed`, before its rounding to one decimal:
      between the slow learner on a weak subject (9.6) and the fast learner
      on a strong subject who did well in the pre-assessment (56.25). */
  function PersonalizedSpeed(profile: Option<Users.Profile>, category: string, score: real): (s: real)
    ensures 9.6 <= s <= 56.25
    ensures s == 9.6 <==> BaseSpeed(profile) == 12.0 && RecordedStrength(profile, category) < 0.3 && score <= 50.0
    ensures s == 56.25 <==> BaseSpeed(profile) == 30.0 && RecordedStrength(profile, category) > 0.7 && score > 80.0
  {
    BaseSpeed(profile) * SubjectModifier(profile, category) * AssessmentModifier(score)
  }

  /** Without a profile the speed depends on the score alone. */
  lemma NoProfileSpeed(category: string, score: real)
    ensures PersonalizedSpeed(None, category, score) == 20.0 * AssessmentModifier(score)
  {
  }

  /** A better pre-assessment never makes the learner slower. */
  lemma {:induction false} SpeedMonotoneInScore(profile: Option<Users.Profile>, category: string, a: real, b: real)
    requires a <= b
    ensures PersonalizedSpeed(profile, category, a) <= PersonalizedSpeed(profile, category, b)
  {
    var k := BaseSpeed(profile) * SubjectModifier(profile, category);
    assert k > 0.0;
    assert AssessmentModifier(a) <= AssessmentModifier(b);
    MulMonotone(k, AssessmentModifier(a), AssessmentModifier(b));
  }

  /** A stronger subject never makes the learner slower. */
  lemma {:induction false} SpeedMonotoneInStrength(p: Option<Users.Profile>, q: Option<Users.Profile>, category: string, score: real)
    requires BaseSpeed(p) == BaseSpeed(q)
    requires RecordedStrength(p, category) <= RecordedStrength(q, category)
    ensures PersonalizedSpeed(p, category, score) <= PersonalizedSpeed(q, category, score)
  {
    var b := BaseSpeed(p);
    var a := AssessmentModifier(score);
    assert SubjectModifier(p, category) <= SubjectModifier(q, category);
    MulMonotone(b, SubjectModifier(p, category), SubjectModifier(q, category));
    MulMonotone(a, b * SubjectModifier(p, category), b * SubjectModifier(q, category));
  }

  lemma MulMonotone(k: real, x: real, y: real)
    requires k > 0.0 && x <= y
    ensures k * x <= k * y
  {
  }

  /** `days_available`: a week without an exam date, otherwise the whole
      days left until the exam, and never less than one. */
  function DaysAvailable(daysToExam: Option<int>): (d: int)
    ensures d >= 1
    ensures daysToExam.None? ==> d == 7
    ensures daysToExam.Some? && daysToExam.value >= 1 ==> d == daysToExam.value
    ensures daysToExam.Some? && daysToExam.value < 1 ==> d == 1
  {
    match daysToExam
    case None => 7
    case Some(n) => Max(1, n)
  }

  /** Days given to the recognition, recall and production phases. */
  datatype Split = Split(recognition: int, recall: int, production: int)

  /** How many tasks the three phase loops create: a negative count runs a
      loop zero times. */
  function TaskCount(s: Split): nat
  {
    Max(0, s.recognition) + Max(0, s.recall) + Max(0, s.production)
  }

  /** The phase split as written: 30% and 40% of the days, rounded down but
      at least one day each, and the rest for production. On a one-day
      budget the rest is -1. */
  function SplitAsWritten(d: int): (s: Split)
    requires d >= 1
    ensures 1 <= s.recognition <= s.recall
    ensures s.recognition + s.recall + s.production == d
    ensures s.production >= 0 <==> d >= 2
  {
    var p1 := Max(1, 3 * d / 10);
    var p2 := Max(1, 2 * d / 5);
    Split(p1, p2, d - p1 - p2)
  }

  /** One task per available day, except that a one-day budget gets two:
      the recognition and the recall phase both insist on a day. */
  lemma SplitAsWrittenOverruns(d: int)
    requires d >= 1
    ensures TaskCount(SplitAsWritten(d)) == if d == 1 then 2 else d
  {
  }

  /** The split as intended: the recall phase takes at least one day only
      when one is left, so the schedule fits the budget. */
  function PhaseSplit(d: int): (s: Split)
    requires d >= 1
    ensures s.recognition >= 1 && s.recall >= 0 && s.production >= 0
    ensures s.recognition <= s.recall || d == 1
    ensures TaskCount(s) == d
  {
    var p1 := Max(1, 3 * d / 10);
    var p2 := Min(Max(1, 2 * d / 5), d - p1);
    Split(p1, p2, d - p1 - p2)
  }

  /** The intended split agrees with the split as written on every budget
      of two days or more, and differs only on a one-day budget. */
  lemma PhaseSplitAgrees(d: int)
    requires d >= 1
    ensures d >= 2 <==> PhaseSplit(d) == SplitAsWritten(d)
  {
  }

  /** The phase of the task on schedule position `i` (day `i + 1`). */
  predicate InRecognition(s: Split, i: int) { i < s.recognition }
  predicate InRecall(s: Split, i: int) { Max(0, s.recognition) <= i < Max(0, s.recognition) + s.recall }

  /** A schedule for the split: recognition days are quizzes of 20
      minutes, recall days flashcard sessions of 30 and production days
      writing sessions of 40, one per day from day 1, none of them
      completed. */
  predicate Scheduled(tasks: seq<Task>, s: Split)
  {
    && |tasks| == TaskCount(s)
    && (forall i :: 0 <= i < |tasks| ==> tasks[i].dayNumber == Some(i + 1) && !tasks[i].completed)
    && (forall i :: 0 <= i < |tasks| ==>
          if InRecognition(s, i) then tasks[i].mode == Quiz && tasks[i].minutes == 20
          else if InRecall(s, i) then tasks[i].mode == Learn && tasks[i].minutes == 30
          else tasks[i].mode == Write && tasks[i].minutes == 40)
  }

  /** The three loops of `generate_adaptive_schedule`. */
  method PhaseTasks(s: Split) returns (tasks: seq<Task>)
    ensures Scheduled(tasks, s)
  {
    var p1, p2, p3 := Max(0, s.recognition), Max(0, s.recall), Max(0, s.production);
    tasks := [];
    var day := 1;
    var k := 0;
    while k < p1
      invariant 0 <= k <= p1 && |tasks| == k && day == k + 1
      invariant forall i :: 0 <= i < |tasks| ==> tasks[i] == Task(Some(i + 1), Quiz, 20, false)
    {
      tasks := tasks + [Task(Some(day), Quiz, 20, false)];
      day := day + 1;
      k := k + 1;
    }
    k := 0;
    while k < p2
      invariant 0 <= k <= p2 && |tasks| == p1 + k && day == p1 + k + 1
      invariant forall i :: 0 <= i < p1 ==> tasks[i] == Task(Some(i + 1), Quiz, 20, false)
      invariant forall i :: p1 <= i < |tasks| ==> tasks[i] == Task(Some(i + 1), Learn, 30, false)
    {
      tasks := tasks + [Task(Some(day), Learn, 30, false)];
      day := day + 1;
      k := k + 1;
    }
    k := 0;
    while k < p3
      invariant 0 <= k <= p3 && |tasks| == p1 + p2 + k && day == p1 + p2 + k + 1
      invariant forall i :: 0 <= i < p1 ==> tasks[i] == Task(Some(i + 1), Quiz, 20, false)
      invariant forall i :: p1 <= i < p1 + p2 ==> tasks[i] == Task(Some(i + 1), Learn, 30, false)
      invariant forall i :: p1 + p2 <= i < |tasks| ==> tasks[i] == Task(Some(i + 1), Write, 40, false)
    {
      tasks := tasks + [Task(Some(day), Write, 40, false)];
      day := day + 1;
      k := k + 1;
    }
  }

  /** The cards still worth scheduling: mastery below 70. */
  predicate IsLearning(c: Card) { c.mastery < 70.0 }

  /** A study plan: its exam, as whole days from now, if it has one. */
  datatype Plan = Plan(id: int, daysToExam: Option<int>)

  /** The plan's tasks afterwards and the value returned: the number of
      tasks created, or nothing. */
  datatype Outcome = Outcome(tasks: seq<Task>, created: Option<nat>)

  /** `generate_adaptive_schedule` on the plan's cards and tasks, with the
      phase split as written. A missing plan or user, or a plan without a
      card to learn, returns nothing and deletes nothing; otherwise the
      unfinished tasks are replaced by one task per available day, or by
      two on a one-day budget. */
  method GenerateAdaptiveSchedule(plan: Option<Plan>, userFound: bool, cards: seq<Card>, tasks: seq<Task>)
    returns (o: Outcome)
    ensures plan.None? || !userFound || Count(cards, IsLearning) == 0 ==> o == Outcome(tasks, None)
    ensures plan.Some? && userFound && Count(cards, IsLearning) > 0 ==>
      var d := DaysAvailable(plan.value.daysToExam);
      var kept := Filter(tasks, IsDone);
      && o.created == Some(TaskCount(SplitAsWritten(d)))
      && |kept| <= |o.tasks| && o.tasks[..|kept|] == kept
      && Scheduled(o.tasks[|kept|..], SplitAsWritten(d))
      && |o.tasks| == |kept| + (if d == 1 then 2 else d)
  {
    if plan.None? || !userFound {
      return Outcome(tasks, None);
    }
    var learning := Filter(cards, IsLearning);
    if |learning| == 0 {
      return Outcome(tasks, None);
    }
    var d := DaysAvailable(plan.value.daysToExam);
    var kept := Filter(tasks, IsDone);
    var added := PhaseTasks(SplitAsWritten(d));
    SplitAsWrittenOverruns(d);
    o := Outcome(kept + added, Some(|added|));
    assert o.tasks[..|kept|] == kept;
    assert o.tasks[|kept|..] == added;
  }

  /** Regenerating a schedule keeps every finished task: the plan's count of
      completed tasks is unchanged, and the new tasks all start open. */
  lemma {:induction false} ScheduleKeepsCompletedWork(kept: seq<Task>, added: seq<Task>, tasks: seq<Task>)
    requires kept == Filter(tasks, IsDone)
    requires forall i :: 0 <= i < |added| ==> !added[i].completed
    ensures TasksCompleted(kept + added) == TasksCompleted(tasks)
  {
    CountAppend(kept, added, IsDone);
    CountFull(kept, IsDone);
    NoneDone(added);
    FilterCount(tasks, IsDone);
  }

  lemma {:induction false} NoneDone(s: seq<Task>)
    requires forall i :: 0 <= i < |s| ==> !s[i].completed
    ensures Count(s, IsDone) == 0
  {
    if s != [] {
      NoneDone(s[..|s| - 1]);
    }
  }

  /** Filtering by a test keeps only elements that pass it. */
  lemma {:induction false} FilterCount<T>(s: seq<T>, p: T -> bool)
    ensures Count(Filter(s, p), p) == Count(s, p)
  {
    if s != [] {
      var init := s[..|s| - 1];
      FilterCount(init, p);
      var last := s[|s| - 1];
      CountAppend(Filter(init, p), if p(last) then [last] else [], p);
      if p(last) {
        assert Count([last], p) == Count([last][..0], p) + 1;
      }
    }
  }
}
