/** The multiple-choice quiz: cards are asked until each has been answered
    right at its first try; each card carries generated questions of three
    kinds, of which the enabled kinds are eligible. */
module MultipleChoiceQuiz {
  import opened Common

  datatype QuestionType = Standard | Reverse | Creative | OtherType(name: string)

  datatype Question = Question(qtype: QuestionType, text: string, options: seq<string>, correctIndex: int)

  datatype QuizCard = QuizCard(id: int, questions: seq<Question>)

  /** The three type switches of the settings panel. */
  datatype Filters = Filters(standard: bool, reverse: bool, creative: bool)

  const DefaultFilters := Filters(true, false, false)

  datatype Progress = Progress(firstTry: bool, wrong: bool)

  function ProgOf(m: map<int, Progress>, id: int): Progress {
    if id in m then m[id] else Progress(false, false)
  }

  predicate Pending(m: map<int, Progress>, c: QuizCard) {
    !ProgOf(m, c.id).firstTry
  }

  /** `flashcardsData.filter(fc => !progress[fc.id]?.correctOnFirstTry)` */
  function Remaining(cards: seq<QuizCard>, m: map<int, Progress>): (r: seq<QuizCard>)
    ensures |r| <= |cards|
    ensures forall c :: c in r <==> c in cards && Pending(m, c)
  {
    if cards == [] then []
    else
      var n := |cards| - 1;
      assert cards == cards[..n] + [cards[n]];
      Remaining(cards[..n], m) + (if Pending(m, cards[n]) then [cards[n]] else [])
  }

  /** Marking a pending card done shrinks the remaining list. */
  lemma {:induction false} RemainingShrinks(cards: seq<QuizCard>, m: map<int, Progress>, m': map<int, Progress>, c: QuizCard)
    requires forall x :: Pending(m', x) ==> Pending(m, x)
    requires c in cards && Pending(m, c) && !Pending(m', c)
    ensures |Remaining(cards, m')| < |Remaining(cards, m)|
    decreases |cards|
  {
    var n := |cards| - 1;
    assert cards == cards[..n] + [cards[n]];
    if cards[n] == c {
      RemainingNoLonger(cards[..n], m, m');
    } else {
      assert c in cards[..n];
      RemainingShrinks(cards[..n], m, m', c);
    }
  }

  lemma {:induction false} RemainingNoLonger(cards: seq<QuizCard>, m: map<int, Progress>, m': map<int, Progress>)
    requires forall x :: Pending(m', x) ==> Pending(m, x)
    ensures |Remaining(cards, m')| <= |Remaining(cards, m)|
    decreases |cards|
  {
    if cards != [] {
      RemainingNoLonger(cards[..|cards| - 1], m, m');
    }
  }

  function Eligible(f: Filters, q: Question): bool {
    (q.qtype == Standard && f.standard) || (q.qtype == Reverse && f.reverse) || (q.qtype == Creative && f.creative)
  }

  function EligibleQuestions(f: Filters, qs: seq<Question>): (r: seq<Question>)
    ensures forall q :: q in r <==> q in qs && Eligible(f, q)
  {
    if qs == [] then []
    else
      var n := |qs| - 1;
      assert qs == qs[..n] + [qs[n]];
      EligibleQuestions(f, qs[..n]) + (if Eligible(f, qs[n]) then [qs[n]] else [])
  }

  /** `array.indexOf(x)` */
  function Find(s: seq<string>, x: string): (r: int)
    ensures -1 <= r < |s|
    ensures r >= 0 ==> s[r] == x && forall j :: 0 <= j < r ==> s[j] != x
    ensures r == -1 <==> x !in s
  {
    if s == [] then -1
    else if s[0] == x then 0
    else
      var r := Find(s[1..], x);
      assert forall j :: 0 < j < |s| ==> s[j] == s[1..][j - 1];
      if r == -1 then -1 else r + 1
  }

  /** What is on screen: the card, the question and its options in shuffled
      order, with the position of the right option (-1 when the question's
      own index pointed at no option). */
  datatype Asked = Asked(card: QuizCard, question: Question, options: seq<string>, answer: int)

  datatype Load = Done | Ask(asked: Asked)

  /** Where the right option of a question ends up after the shuffle. */
  function Shuffled(q: Question, shuffled: seq<string>): (a: int)
    requires multiset(shuffled) == multiset(q.options)
    ensures 0 <= q.correctIndex < |q.options| ==> 0 <= a < |shuffled| && shuffled[a] == q.options[q.correctIndex]
    ensures !(0 <= q.correctIndex < |q.options|) ==> a == -1
  {
    if 0 <= q.correctIndex < |q.options| then
      assert q.options[q.correctIndex] in multiset(shuffled);
      Find(shuffled, q.options[q.correctIndex])
    else -1
  }

  /** The random choices of one load: which remaining card (random mode),
      which eligible question, and how the options are arranged. */
  ghost predicate Chooser(pick: seq<QuizCard> -> nat, qpick: seq<Question> -> nat, shuffle: seq<string> -> seq<string>) {
    && (forall r :: r != [] ==> pick(r) < |r|)
    && (forall qs :: qs != [] ==> qpick(qs) < |qs|)
    && (forall o :: multiset(shuffle(o)) == multiset(o))
  }

  /** `loadNextQuestion`: with nothing remaining the quiz is done; otherwise
      the first remaining card (or a random one), and, when it has no
      eligible question, the same again with that card counted as done
      (in the local map only). Each skip removes a card from the remaining
      list, so the recursion ends. */
  function LoadNext(cards: seq<QuizCard>, m: map<int, Progress>, f: Filters, random: bool,
                    pick: seq<QuizCard> -> nat, qpick: seq<Question> -> nat, shuffle: seq<string> -> seq<string>): (r: Load)
    requires Chooser(pick, qpick, shuffle)
    ensures Remaining(cards, m) == [] ==> r == Done
    ensures r.Ask? ==> Proper(cards, m, f, r.asked)
    ensures !random && Remaining(cards, m) != [] && EligibleQuestions(f, Remaining(cards, m)[0].questions) != [] ==>
      r.Ask? && r.asked.card == Remaining(cards, m)[0]
    decreases |Remaining(cards, m)|
  {
    var rem := Remaining(cards, m);
    if rem == [] then Done
    else
      var next := if random then rem[pick(rem)] else rem[0];
      var qs := EligibleQuestions(f, next.questions);
      if qs == [] then
        var m' := m[next.id := Progress(true, false)];
        RemainingShrinks(cards, m, m', next);
        var r := LoadNext(cards, m', f, random, pick, qpick, shuffle);
        assert r.Ask? ==> Proper(cards, m, f, r.asked);
        r
      else
        var a := AskFor(next, qs, qpick, shuffle);
        assert next in rem;
        Ask(a)
  }

  /** A question fit to be shown: an eligible question of a pending card,
      its options a permutation of the question's, the right one located. */
  predicate Proper(cards: seq<QuizCard>, m: map<int, Progress>, f: Filters, a: Asked) {
    && a.card in cards && Pending(m, a.card)
    && a.question in a.card.questions && Eligible(f, a.question)
    && multiset(a.options) == multiset(a.question.options)
    && (0 <= a.question.correctIndex < |a.question.options| ==>
          0 <= a.answer < |a.options| && a.options[a.answer] == a.question.options[a.question.correctIndex])
  }

  /** One of the card's eligible questions, its options shuffled. */
  function AskFor(c: QuizCard, qs: seq<Question>, qpick: seq<Question> -> nat, shuffle: seq<string> -> seq<string>): (a: Asked)
    requires qs != [] && qpick(qs) < |qs| && multiset(shuffle(qs[qpick(qs)].options)) == multiset(qs[qpick(qs)].options)
    ensures a.card == c && a.question in qs
    ensures multiset(a.options) == multiset(a.question.options)
    ensures 0 <= a.question.correctIndex < |a.question.options| ==>
      0 <= a.answer < |a.options| && a.options[a.answer] == a.question.options[a.question.correctIndex]
  {
    var q := qs[qpick(qs)];
    var o := shuffle(q.options);
    Asked(c, q, o, Shuffled(q, o))
  }

  // ---- the quiz ---------------------------------------------------------------

  datatype Outcome = Outcome(cardId: int, correct: bool)

  datatype Quiz = Quiz(
    cards: seq<QuizCard>,
    testMode: bool,
    filters: Filters,
    random: bool,
    progress: map<int, Progress>,
    current: Option<Asked>,
    submitted: bool,
    completed: bool,
    correctCount: nat,
    wrongCount: nat,
    results: seq<Outcome>)

  /** The load applied to the screen; the progress map is left as it was. */
  function Show(z: Quiz, l: Load): (t: Quiz)
    ensures l == Done ==> t == z.(completed := true)
    ensures l.Ask? ==> t == z.(current := Some(l.asked), submitted := false)
  {
    match l
    case Done => z.(completed := true)
    case Ask(a) => z.(current := Some(a), submitted := false)
  }

  /** `fetchData`: an empty quiz loads nothing; otherwise the first question
      with an empty progress map. */
  function Start(cards: seq<QuizCard>, testMode: bool, f: Filters, random: bool,
                 pick: seq<QuizCard> -> nat, qpick: seq<Question> -> nat, shuffle: seq<string> -> seq<string>): (r: Option<Quiz>)
    requires Chooser(pick, qpick, shuffle)
    ensures r.None? <==> cards == []
    ensures r.Some? ==> r.value.progress == map[] && r.value.results == [] && r.value.correctCount == 0 && r.value.wrongCount == 0
  {
    if cards == [] then None
    else
      var z := Quiz(cards, testMode, f, random, map[], None, false, false, 0, 0, []);
      Some(Show(z, LoadNext(cards, map[], f, random, pick, qpick, shuffle)))
  }

  /** `handleSubmit`: right exactly when the chosen position is the right
      option's. A right answer masters the card unless it was already
      missed; a wrong one marks it missed. The test mode records the
      outcome. */
  function Submit(z: Quiz, selected: int): (t: Quiz)
    requires z.current.Some?
    ensures var a := z.current.value; var id := a.card.id; var p := ProgOf(z.progress, id);
      var right := selected == a.answer;
      && t.submitted
      && t.progress == z.progress[id := if right then (if p.wrong then p else p.(firstTry := true)) else p.(wrong := true)]
      && (right ==> t.correctCount == z.correctCount + 1 && t.wrongCount == z.wrongCount)
      && (!right ==> t.wrongCount == z.wrongCount + 1 && t.correctCount == z.correctCount)
      && t.results == z.results + (if z.testMode then [Outcome(id, right)] else [])
    ensures t.cards == z.cards && t.current == z.current && t.completed == z.completed
  {
    var a := z.current.value;
    var id := a.card.id;
    var p := ProgOf(z.progress, id);
    var right := selected == a.answer;
    var p' := if right then (if p.wrong then p else p.(firstTry := true)) else p.(wrong := true);
    z.(submitted := true, progress := z.progress[id := p'],
       correctCount := if right then z.correctCount + 1 else z.correctCount,
       wrongCount := if right then z.wrongCount else z.wrongCount + 1,
       results := z.results + (if z.testMode then [Outcome(id, right)] else []))
  }

  /** `handleSelectAnswer`: only before the answer is submitted. */
  function Select(z: Quiz, index: int): (t: Quiz)
    requires z.current.Some?
    ensures z.submitted ==> t == z
    ensures !z.submitted ==> t == Submit(z, index)
  {
    if z.submitted then z else Submit(z, index)
  }

  /** `handleContinue` */
  function Continue(z: Quiz, pick: seq<QuizCard> -> nat, qpick: seq<Question> -> nat, shuffle: seq<string> -> seq<string>): (t: Quiz)
    requires Chooser(pick, qpick, shuffle)
    ensures t.progress == z.progress && t.correctCount == z.correctCount && t.results == z.results
    ensures Remaining(z.cards, z.progress) == [] ==> t.completed
    ensures t.current != z.current ==> t.current.Some? && Pending(z.progress, t.current.value.card)
  {
    Show(z, LoadNext(z.cards, z.progress, z.filters, z.random, pick, qpick, shuffle))
  }

  /** `handleRestart`: progress, counters and outcomes cleared, then a new
      first question. */
  function Restart(z: Quiz, pick: seq<QuizCard> -> nat, qpick: seq<Question> -> nat, shuffle: seq<string> -> seq<string>): (t: Quiz)
    requires Chooser(pick, qpick, shuffle)
    ensures t.progress == map[] && t.correctCount == 0 && t.wrongCount == 0 && t.results == []
    ensures t.completed <==> LoadNext(z.cards, map[], z.filters, z.random, pick, qpick, shuffle) == Done
  {
    var z0 := z.(progress := map[], correctCount := 0, wrongCount := 0, completed := false, results := []);
    Show(z0, LoadNext(z.cards, map[], z.filters, z.random, pick, qpick, shuffle))
  }

  /** Once missed, a card keeps its miss flag through every submission and
      load, so it is never mastered at the first try and stays remaining
      until a restart. */
  lemma MissedCardStaysRemaining(z: Quiz, id: int, selected: int,
                                 pick: seq<QuizCard> -> nat, qpick: seq<Question> -> nat, shuffle: seq<string> -> seq<string>)
    requires Chooser(pick, qpick, shuffle)
    requires ProgOf(z.progress, id).wrong && !ProgOf(z.progress, id).firstTry
    ensures z.current.Some? ==> ProgOf(Submit(z, selected).progress, id).wrong && !ProgOf(Submit(z, selected).progress, id).firstTry
    ensures ProgOf(Continue(z, pick, qpick, shuffle).progress, id) == ProgOf(z.progress, id)
    ensures forall c :: c in z.cards && c.id == id ==> c in Remaining(z.cards, z.progress)
  {
  }

  /** The completion screen. */
  datatype Stats = Stats(totalQuestions: nat, accuracy: real, firstTryCorrect: nat)

  /** The cards answered right at their first try. */
  function FirstTryIds(m: map<int, Progress>): (r: set<int>)
    ensures forall id :: id in r <==> id in m && m[id].firstTry
  {
    set id | id in m && m[id].firstTry
  }

  function GetStats(z: Quiz): (st: Stats)
    ensures st.totalQuestions == z.correctCount + z.wrongCount
    ensures st.totalQuestions == 0 ==> st.accuracy == 0.0
    ensures st.totalQuestions > 0 ==> st.accuracy * (st.totalQuestions as real) == (z.correctCount as real) * 100.0
    ensures 0.0 <= st.accuracy <= 100.0
    ensures st.firstTryCorrect == |FirstTryIds(z.progress)| <= |z.progress|
  {
    SubsetCard(FirstTryIds(z.progress), z.progress.Keys);
    Stats(z.correctCount + z.wrongCount, Percent(z.correctCount, z.correctCount + z.wrongCount), |FirstTryIds(z.progress)|)
  }

  predicate DistinctIds(cards: seq<QuizCard>) {
    forall i, j :: 0 <= i < j < |cards| ==> cards[i].id != cards[j].id
  }

  /** The ids of the cards no longer pending. */
  function DoneIds(cards: seq<QuizCard>, m: map<int, Progress>): set<int> {
    set c | c in cards && !Pending(m, c) :: c.id
  }

  /** On cards with distinct ids, every card is either remaining or
      counted among the done ids, and never both. */
  lemma {:induction false} DoneAndRemaining(cards: seq<QuizCard>, m: map<int, Progress>)
    requires DistinctIds(cards)
    ensures |DoneIds(cards, m)| + |Remaining(cards, m)| == |cards|
  {
    if cards != [] {
      var n := |cards| - 1;
      assert DistinctIds(cards[..n]);
      DoneAndRemaining(cards[..n], m);
      DoneIdsStep(cards, m);
    }
  }

  /** The last card adds its id to the done ids when it is done, and that
      id is new. */
  lemma {:induction false} DoneIdsStep(cards: seq<QuizCard>, m: map<int, Progress>)
    requires DistinctIds(cards) && cards != []
    ensures var n := |cards| - 1;
      && cards[n].id !in DoneIds(cards[..n], m)
      && DoneIds(cards, m) == DoneIds(cards[..n], m) + (if Pending(m, cards[n]) then {} else {cards[n].id})
  {
    var n := |cards| - 1;
    var init, last := cards[..n], cards[n];
    assert cards == init + [last];
    forall c | c in init
      ensures c.id != last.id
    {
      var i :| 0 <= i < n && init[i] == c;
      assert cards[i] == c;
    }
  }

  /** With distinct card ids and the progress keyed by the cards, the cards
      mastered at the first try and the cards still to ask make up the
      quiz. */
  lemma {:induction false} FirstTryAndRemaining(z: Quiz)
    requires DistinctIds(z.cards)
    requires forall id :: id in z.progress ==> exists c :: c in z.cards && c.id == id
    ensures GetStats(z).firstTryCorrect + |Remaining(z.cards, z.progress)| == |z.cards|
  {
    DoneAndRemaining(z.cards, z.progress);
    forall id | id in FirstTryIds(z.progress)
      ensures id in DoneIds(z.cards, z.progress)
    {
      var c :| c in z.cards && c.id == id;
    }
    assert FirstTryIds(z.progress) == DoneIds(z.cards, z.progress);
  }
}
