/** The stored records the backend rules work on: scheduled tasks,
    flashcards with their mastery, and the study plan's derived progress
    figures. */
module Models {
  import opened Common

  /** The `StudyMode` enumeration of a task. */
  datatype Mode = Learn | Quiz | Match | Write | FillGaps | ShortTest | LongTest | PreAssessment

  /** A task of a plan: its day, mode, estimated minutes and whether it is
      done (`completion_status`). */
  datatype Task = Task(dayNumber: Option<int>, mode: Mode, minutes: int, completed: bool)

  /** A multiple-choice question stored with a flashcard. */
  datatype StoredMcq = StoredMcq(text: string, options: seq<string>, correctIndex: int)

  /** A stored flashcard; `mastery` is a percentage. */
  datatype Card = Card(id: int, front: string, back: string, difficulty: string,
                       mastery: real, timesStudied: int, mcqs: seq<StoredMcq>)

  /** A flashcard as first stored: medium difficulty, never studied, mastery
      0, which lies in the documented range 0 to 100. */
  function NewCard(id: int, front: string, back: string, mcqs: seq<StoredMcq>): (c: Card)
    ensures c.id == id && c.front == front && c.back == back && c.mcqs == mcqs
    ensures c.difficulty == "medium" && c.timesStudied == 0
    ensures c.mastery == 0.0 && 0.0 <= c.mastery <= 100.0
  {
    Card(id, front, back, "medium", 0.0, 0, mcqs)
  }

  predicate IsDone(t: Task) { t.completed }

  /** `StudyPlan.tasks_total`: every task of the plan. */
  function TasksTotal(tasks: seq<Task>): (n: nat)
    ensures n == |tasks|
  {
    |tasks|
  }

  /** `StudyPlan.tasks_completed`: the tasks marked complete, never more than
      the plan has, and all of them exactly when every task is done. */
  function TasksCompleted(tasks: seq<Task>): (n: nat)
    ensures n <= TasksTotal(tasks)
    ensures n == TasksTotal(tasks) <==> forall t :: t in tasks ==> t.completed
    ensures n == |Filter(tasks, IsDone)|
  {
    CountFull(tasks, IsDone);
    Count(tasks, IsDone)
  }

  /** `StudyPlan.progress_percentage`: 0 for a plan without tasks, otherwise
      the share of completed tasks as a percentage. */
  function ProgressPercentage(tasks: seq<Task>): (p: real)
    ensures tasks == [] ==> p == 0.0
    ensures tasks != [] ==> p * (|tasks| as real) == (TasksCompleted(tasks) as real) * 100.0
    ensures 0.0 <= p <= 100.0
    ensures tasks != [] ==> (p == 100.0 <==> forall t :: t in tasks ==> t.completed)
  {
    var total := TasksTotal(tasks);
    if total == 0 then 0.0 else Percent(TasksCompleted(tasks), total)
  }

  /** Completing one more task never lowers the plan's progress. */
  lemma {:induction false} CompletingRaisesProgress(tasks: seq<Task>, i: nat)
    requires i < |tasks|
    ensures ProgressPercentage(tasks[i := tasks[i].(completed := true)]) >= ProgressPercentage(tasks)
  {
    var u := tasks[i := tasks[i].(completed := true)];
    CountRaise(tasks, i);
    PercentMonotone(TasksCompleted(tasks), TasksCompleted(u), |tasks|);
  }

  lemma {:induction false} CountRaise(tasks: seq<Task>, i: nat)
    requires i < |tasks|
    ensures Count(tasks[i := tasks[i].(completed := true)], IsDone) >= Count(tasks, IsDone)
    decreases |tasks|
  {
    var n := |tasks|;
    var u := tasks[i := tasks[i].(completed := true)];
    if i < n - 1 {
      assert u[..n - 1] == tasks[..n - 1][i := tasks[i].(completed := true)];
      CountRaise(tasks[..n - 1], i);
    } else {
      assert u[..n - 1] == tasks[..n - 1];
    }
  }
}
