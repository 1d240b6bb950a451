/** The pure parts of the AI service: what happens when a reply has the
    wrong shape, the fixed fallback schedule, and the choice of weak words
    from earlier test results. The model calls themselves are not part of
    this model; a reply is a parameter. */
module AiService {
  import opened Common
  import MockAi
  import Models

  /** What a model call produced: the list under the expected key, some
      other JSON value there, or an exception. */
  datatype Reply<T> = AList(items: seq<T>) | NotAList | Failed

  /** `generate_vocabulary_flashcards`: a reply that is not a non-empty list
      falls back to the mock vocabulary (20 requested), so the result is
      never empty. */
  function VocabularyFlashcards(reply: Reply<MockAi.VocabCard>, text: string): (r: seq<MockAi.VocabCard>)
    ensures r != []
    ensures reply.AList? && reply.items != [] ==> r == reply.items
    ensures !(reply.AList? && reply.items != []) ==> r == MockAi.VocabularyFlashcards(text, 20)
  {
    match reply
    case AList(items) => if |items| == 0 then MockAi.VocabularyFlashcards(text, 20) else items
    case NotAList => MockAi.VocabularyFlashcards(text, 20)
    case Failed => MockAi.VocabularyFlashcards(text, 20)
  }

  /** `generate_vocabulary_mcqs`: anything but a list of exactly three
      questions is replaced by the mock questions, so there are always
      three. */
  function VocabularyMcqs(reply: Reply<MockAi.Mcq>, front: string, back: string,
                          questionLang: string, answerLang: string): (qs: seq<MockAi.Mcq>)
    ensures |qs| == 3
    ensures reply.AList? && |reply.items| == 3 ==> qs == reply.items
    ensures !(reply.AList? && |reply.items| == 3) ==>
      qs == MockAi.McqQuestions(map["front_text" := front, "back_text" := back], questionLang, answerLang)
  {
    if reply.AList? && |reply.items| == 3 then reply.items
    else MockAi.McqQuestions(map["front_text" := front, "back_text" := back], questionLang, answerLang)
  }

  /** A task as the schedule generator returns it. */
  datatype PlanTask = PlanTask(title: string, kind: string, mode: Models.Mode, minutes: int, dayNumber: int, order: int)

  /** The fixed schedule: the pre-assessment, then the seven practice
      tasks. */
  const FullSchedule: seq<PlanTask> := [AssessmentTask] + PracticeTasks

  const AssessmentTask := PlanTask("Pre-Assessment Test", "comprehensive_test", Models.PreAssessment, 15, 1, 1)

  const PracticeTasks: seq<PlanTask> := [
    PlanTask("Initial Vocabulary Review", "flashcard_review", Models.Learn, 20, 1, 2),
    PlanTask("Vocabulary Quiz", "multiple_choice_quiz", Models.Quiz, 10, 2, 1),
    PlanTask("Connect the Terms", "matching_game", Models.Match, 15, 2, 2),
    PlanTask("Writing Practice", "writing_practice", Models.Write, 20, 3, 1),
    PlanTask("Fill the Gaps", "fill_the_gap", Models.FillGaps, 15, 3, 2),
    PlanTask("Mid-Week Check", "short_test", Models.ShortTest, 10, 4, 1),
    PlanTask("Final Review", "comprehensive_test", Models.LongTest, 30, 5, 1)
  ]

  /** One entry of the earlier test results: the card's mastery, if given. */
  datatype Detail = Detail(mastery: Option<real>)

  /** Python truthiness of the optional results dictionary. */
  predicate HasResults(results: Option<map<string, Detail>>)
  {
    results.Some? && results.value != map[]
  }

  predicate NotPreAssessment(t: PlanTask) { !t.mode.PreAssessment? }

  /** `get_fallback_schedule`: the eight fixed tasks, opening with the
      pre-assessment on day 1; once there are test results, the same list
      without the pre-assessment. */
  function FallbackSchedule(results: Option<map<string, Detail>>): (r: seq<PlanTask>)
    ensures !HasResults(results) ==> r == FullSchedule
    ensures HasResults(results) ==> r == Filter(FullSchedule, NotPreAssessment)
  {
    if HasResults(results) then Filter(FullSchedule, NotPreAssessment) else FullSchedule
  }

  /** The fallback schedule's shape: eight tasks starting with the
      pre-assessment on day 1, or, after a test, the seven others in the
      same order, none of them a pre-assessment. */
  lemma {:induction false} FallbackShape(results: Option<map<string, Detail>>)
    ensures var r := FallbackSchedule(results);
      && (!HasResults(results) ==> |r| == 8 && r[0].mode == Models.PreAssessment && r[0].dayNumber == 1)
      && (HasResults(results) ==>
            |r| == 7 && r == FullSchedule[1..] && forall t :: t in r ==> t.mode != Models.PreAssessment)
  {
    if HasResults(results) {
      FilteredFallback();
    }
  }

  lemma {:induction false} FilteredFallback()
    ensures Filter(FullSchedule, NotPreAssessment) == FullSchedule[1..]
  {
    var t := PracticeTasks;
    FilterAppend([AssessmentTask], t, NotPreAssessment);
    assert Filter([AssessmentTask], NotPreAssessment) == [];
    KeepSeven(t[0], t[1], t[2], t[3], t[4], t[5], t[6], NotPreAssessment);
    assert t == [t[0], t[1], t[2], t[3], t[4], t[5], t[6]];
  }

  lemma {:induction false} KeepSeven<T>(a: T, b: T, c: T, d: T, e: T, f: T, g: T, p: T -> bool)
    requires p(a) && p(b) && p(c) && p(d) && p(e) && p(f) && p(g)
    ensures Filter([a, b, c, d, e, f, g], p) == [a, b, c, d, e, f, g]
  {
    FilterAll([a, b, c, d, e, f, g], p);
  }

  /** A flashcard as sent to the schedule generator. */
  datatype SchedCard = SchedCard(id: Option<int>, front: Option<string>)

  /** Python's `str` of an integer. */
  function DecimalString(n: int): (s: string)
    ensures s != []
    ensures n >= 0 ==> forall k :: 0 <= k < |s| ==> '0' <= s[k] <= '9'
    ensures n < 0 ==> s[0] == '-'
    decreases if n < 0 then 1 - n else n
  {
    if n < 0 then "-" + DecimalString(-n)
    else if n < 10 then [(48 + n) as char]
    else DecimalString(n / 10) + [(48 + n % 10) as char]
  }

  /** `str(fc.get("id", ""))` */
  function ResultKey(c: SchedCard): string
  {
    match c.id
    case None => ""
    case Some(n) => DecimalString(n)
  }

  /** A weak word: the card has a test result whose mastery, 100 when not
      given, is below 70. */
  predicate IsWeak(results: map<string, Detail>, c: SchedCard)
  {
    var k := ResultKey(c);
    k in results && (match results[k].mastery case None => false case Some(m) => m < 70.0)
  }

  /** The weak words listed for the schedule prompt: with test results, the
      first twenty weak cards in list order; otherwise none. */
  function WeakWords(cards: seq<SchedCard>, results: Option<map<string, Detail>>): (r: seq<SchedCard>)
    ensures |r| <= 20
    ensures !HasResults(results) ==> r == []
    ensures HasResults(results) ==>
      var all := Filter(cards, c => IsWeak(results.value, c));
      && |r| == Min(20, |all|) && r == all[..|r|]
  {
    if HasResults(results) then
      var all := Filter(cards, c => IsWeak(results.value, c));
      all[..Min(20, |all|)]
    else []
  }

  /** Every word listed is weak and among the cards; and when there are at
      most twenty weak cards, every weak card is listed. */
  lemma {:induction false} WeakWordsSound(cards: seq<SchedCard>, results: map<string, Detail>)
    requires results != map[]
    ensures forall c :: c in WeakWords(cards, Some(results)) ==> c in cards && IsWeak(results, c)
    ensures Count(cards, c => IsWeak(results, c)) <= 20 ==>
      forall c :: c in cards && IsWeak(results, c) ==> c in WeakWords(cards, Some(results))
  {
    var all := Filter(cards, c => IsWeak(results, c));
    FilterMembers(cards, c => IsWeak(results, c));
    assert WeakWords(cards, Some(results)) == all[..Min(20, |all|)];
    forall c | c in WeakWords(cards, Some(results)) ensures c in all {
      var i :| 0 <= i < Min(20, |all|) && all[..Min(20, |all|)][i] == c;
      assert all[i] == c;
    }
    if |all| <= 20 {
      assert all[..|all|] == all;
    }
  }

  /** `generate_study_schedule`: the model's task list when the call
      succeeds, the fallback schedule when it fails. */
  function StudySchedule(reply: Option<seq<PlanTask>>, results: Option<map<string, Detail>>): (r: seq<PlanTask>)
    ensures reply.Some? ==> r == reply.value
    ensures reply.None? ==> r == FallbackSchedule(results) && |r| >= 7
  {
    FallbackShape(results);
    match reply
    case Some(tasks) => tasks
    case None => FallbackSchedule(results)
  }
}
