/** The pre-assessment service: a short test sampled from the plan's
    flashcards, and the submission that scores it and resets the mastery
    of every card answered. */
module PreAssessment {
  import opened Common
  import opened Models

  /** One stored question: the card it tests, its type ("mcq" or
      "flashcard"), its text and options, and the expected answer. */
  datatype Question = Question(flashcardId: int, kind: string, text: string, options: seq<string>, backText: string)

  datatype Assessment = Assessment(id: int, planId: int, status: string, totalQuestions: int,
                                   score: real, questions: seq<Question>)

  /** One answer of a submission. */
  datatype Response = Response(flashcardId: int, correct: bool)

  /** `sample_size`: a quarter of the cards, at least 5 and at most 20,
      and never more cards than there are. */
  function SampleSize(n: nat): (k: nat)
    ensures k <= n && k <= 20
    ensures n >= 1 ==> k >= 1
    ensures n <= 5 ==> k == n
    ensures n >= 5 ==> k >= 5
    ensures 20 <= n ==> 4 * k <= n
    ensures 20 <= n < 84 ==> k == n / 4
    ensures n >= 80 ==> k == 20
  {
    Min(Min(Max(5, n / 4), 20), n)
  }

  /** A draw of `random.sample`: `k` distinct positions among `n`. */
  predicate ValidSample(sample: seq<nat>, n: nat, k: nat)
  {
    && |sample| == k
    && (forall i :: 0 <= i < k ==> sample[i] < n)
    && (forall i, j :: 0 <= i < j < k ==> sample[i] != sample[j])
  }

  /** The question for one card: its first stored multiple-choice question
      if it has any, otherwise its front as a plain flashcard question. */
  function QuestionOf(c: Card): (q: Question)
    ensures q.flashcardId == c.id && q.backText == c.back
    ensures q.kind == "mcq" <==> c.mcqs != []
    ensures c.mcqs != [] ==> q.text == c.mcqs[0].text && q.options == c.mcqs[0].options
    ensures c.mcqs == [] ==> q.kind == "flashcard" && q.text == c.front && q.options == []
  {
    if c.mcqs != [] then Question(c.id, "mcq", c.mcqs[0].text, c.mcqs[0].options, c.back)
    else Question(c.id, "flashcard", c.front, [], c.back)
  }

  /** `generate_pre_assessment` for a plan: an assessment already on record
      is returned as it is, a plan without cards gets none, and otherwise
      a pending assessment is made of one question per sampled card. The
      sample is the random draw. */
  method GeneratePreAssessment(existing: Option<Assessment>, planId: int, cards: seq<Card>,
                               sample: seq<nat>, newId: int) returns (r: Option<Assessment>)
    requires existing.None? && cards != [] ==> ValidSample(sample, |cards|, SampleSize(|cards|))
    ensures existing.Some? ==> r == existing
    ensures existing.None? && cards == [] ==> r.None?
    ensures existing.None? && cards != [] ==>
      && r.Some? && r.value.id == newId && r.value.planId == planId
      && r.value.status == "pending" && r.value.score == 0.0
      && |r.value.questions| == r.value.totalQuestions == SampleSize(|cards|)
      && forall i :: 0 <= i < |r.value.questions| ==> r.value.questions[i] == QuestionOf(cards[sample[i]])
  {
    if existing.Some? {
      return existing;
    }
    if cards == [] {
      return None;
    }
    var k := SampleSize(|cards|);
    var questions: seq<Question> := [];
    var i := 0;
    while i < k
      invariant 0 <= i <= k && |questions| == i
      invariant forall j :: 0 <= j < i ==> questions[j] == QuestionOf(cards[sample[j]])
    {
      questions := questions + [QuestionOf(cards[sample[i]])];
      i := i + 1;
    }
    r := Some(Assessment(newId, planId, "pending", |questions|, 0.0, questions));
  }

  /** Cards with distinct ids give questions about distinct cards: no card
      is asked twice. */
  lemma {:induction false} SampledCardsDistinct(cards: seq<Card>, sample: seq<nat>, questions: seq<Question>)
    requires forall i, j :: 0 <= i < j < |cards| ==> cards[i].id != cards[j].id
    requires ValidSample(sample, |cards|, |questions|)
    requires forall i :: 0 <= i < |questions| ==> questions[i] == QuestionOf(cards[sample[i]])
    ensures forall i, j :: 0 <= i < j < |questions| ==> questions[i].flashcardId != questions[j].flashcardId
  {
    forall i, j | 0 <= i < j < |questions|
      ensures questions[i].flashcardId != questions[j].flashcardId
    {
      var a, b := sample[i], sample[j];
      assert a != b;
      if a < b {
        assert cards[a].id != cards[b].id;
      } else {
        assert cards[b].id != cards[a].id;
      }
    }
  }

  /** The card update for one answer: right means mastered for now (80,
      marked easy), wrong means start from zero; either way studied once. */
  function Apply(c: Card, correct: bool): (d: Card)
    ensures d.id == c.id && d.front == c.front && d.back == c.back && d.mcqs == c.mcqs
    ensures d.timesStudied == 1
    ensures d.mastery == if correct then 80.0 else 0.0
    ensures d.difficulty == if correct then "easy" else c.difficulty
  {
    if correct then c.(mastery := 80.0, timesStudied := 1, difficulty := "easy")
    else c.(mastery := 0.0, timesStudied := 1)
  }

  /** The answers in order, each updating its card if the card exists. */
  function ApplyAll(cards: map<int, Card>, rs: seq<Response>): (m: map<int, Card>)
    ensures m.Keys == cards.Keys
  {
    if rs == [] then cards
    else
      var m := ApplyAll(cards, rs[..|rs| - 1]);
      var r := rs[|rs| - 1];
      if r.flashcardId in m then m[r.flashcardId := Apply(m[r.flashcardId], r.correct)] else m
  }

  predicate IsCorrect(r: Response) { r.correct }

  /** The last answer given about a card, if any. */
  function LastAnswer(rs: seq<Response>, id: int): Option<bool>
  {
    if rs == [] then None
    else if rs[|rs| - 1].flashcardId == id then Some(rs[|rs| - 1].correct)
    else LastAnswer(rs[..|rs| - 1], id)
  }

  /** Whether some answer about the card was right. */
  predicate EverRight(rs: seq<Response>, id: int)
  {
    exists i :: 0 <= i < |rs| && rs[i].flashcardId == id && rs[i].correct
  }

  /** After a submission each card's mastery follows the last answer about
      it, a card answered right at least once is marked easy, and a card
      nobody answered is left as it was. */
  lemma {:induction false} ApplyAllEffect(cards: map<int, Card>, rs: seq<Response>, id: int)
    requires id in cards
    ensures var c, d := cards[id], ApplyAll(cards, rs)[id];
      && d.id == c.id && d.front == c.front && d.back == c.back
      && (LastAnswer(rs, id).None? ==> d == c)
      && (LastAnswer(rs, id).Some? ==>
            d.timesStudied == 1 && d.mastery == (if LastAnswer(rs, id).value then 80.0 else 0.0))
      && d.difficulty == (if EverRight(rs, id) then "easy" else c.difficulty)
  {
    if rs != [] {
      var init := rs[..|rs| - 1];
      var r := rs[|rs| - 1];
      ApplyAllEffect(cards, init, id);
      if EverRight(rs, id) && !(r.flashcardId == id && r.correct) {
        var i :| 0 <= i < |rs| && rs[i].flashcardId == id && rs[i].correct;
        assert i < |init| && init[i] == rs[i];
      }
      if EverRight(init, id) {
        var i :| 0 <= i < |init| && init[i].flashcardId == id && init[i].correct;
        assert rs[i] == init[i];
      }
      if r.flashcardId == id && r.correct {
        assert rs[|rs| - 1] == r;
      }
    }
  }

  /** The score: right answers per stored question, as a percentage, or 0
      for an assessment without questions. It is not capped: more right
      answers than questions score above 100. */
  function Score(correctCount: nat, totalQuestions: int): (s: real)
    ensures totalQuestions <= 0 ==> s == 0.0
    ensures totalQuestions > 0 ==> s * (totalQuestions as real) == (correctCount as real) * 100.0
    ensures 0.0 <= s
    ensures totalQuestions > 0 && correctCount <= totalQuestions ==> s <= 100.0
  {
    if totalQuestions > 0 then Percent(correctCount, totalQuestions) else 0.0
  }

  /** Two right answers on a one-question assessment score 200. */
  lemma ScoreUncapped()
    ensures Score(2, 1) == 200.0
  {
  }

  /** `submit_assessment`: an unknown assessment changes nothing; otherwise
      the answers update their cards, and the assessment is completed with
      its score. */
  function SubmitAssessment(a: Option<Assessment>, rs: seq<Response>, cards: map<int, Card>)
    : (r: (Option<Assessment>, map<int, Card>))
    ensures a.None? ==> r == (None, cards)
    ensures a.Some? ==>
      && r.0.Some? && r.0.value == a.value.(status := "completed", score := r.0.value.score)
      && r.0.value.score == Score(Count(rs, IsCorrect), a.value.totalQuestions)
      && r.1 == ApplyAll(cards, rs)
  {
    match a
    case None => (None, cards)
    case Some(x) =>
      (Some(x.(status := "completed", score := Score(Count(rs, IsCorrect), x.totalQuestions))), ApplyAll(cards, rs))
  }

  /** A submission on a fresh assessment scores between 0 and 100 when it
      answers no more than the questions asked. */
  lemma SubmittedScoreInRange(a: Assessment, rs: seq<Response>, cards: map<int, Card>)
    requires |rs| <= a.totalQuestions
    ensures var s := SubmitAssessment(Some(a), rs, cards).0.value.score; 0.0 <= s <= 100.0
  {
  }
}
