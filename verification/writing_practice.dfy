/** The writing practice session: the learner types the translation of the
    current card, the answer is graded by `LcsDiff.Compare`, and the deck
    moves on by the rules of `DrillDeck`. */
module WritingPractice {
  import opened Common
  import opened TextNormalize
  import opened LcsDiff
  import opened DrillDeck

  datatype Session = Session(
    /** the cards the session was loaded with */
    cards: seq<Flashcard>,
    deck: seq<Flashcard>,
    index: nat,
    status: map<int, CardStatus>,
    correctCount: nat,
    incorrectCount: nat,
    result: Option<Comparison>,
    completed: bool,
    /** asks for the front side when true */
    swapped: bool,
    /** what `onComplete` received, if it was called */
    reported: Option<map<int, CardStatus>>)

  datatype Stats = Stats(totalWords: nat, firstTryCorrect: nat, totalAttempts: nat, accuracy: real)

  /** The pre-loaded start: an empty card list ends the session at once and
      reports an empty status; otherwise the cards are studied in the given
      order. */
  function Start(cards: seq<Flashcard>, swapped: bool): (s: Session)
    ensures cards == [] ==> s.completed && s.reported == Some(map[])
    ensures cards != [] ==> !s.completed && s.deck == cards && s.index == 0 && s.reported == None
    ensures forall id :: id in s.status <==> HasCard(cards, id)
    ensures s.correctCount == 0 && s.incorrectCount == 0
  {
    if cards == [] then Session([], [], 0, map[], 0, 0, None, true, swapped, Some(map[]))
    else Session(cards, cards, 0, InitStatus(cards), 0, 0, None, false, swapped, None)
  }

  function Question(s: Session, c: Flashcard): string {
    if s.swapped then c.back else c.front
  }

  function Expected(s: Session, c: Flashcard): string {
    if s.swapped then c.front else c.back
  }

  function StatusOf(s: Session, id: int): CardStatus {
    if id in s.status then s.status[id] else Fresh
  }

  /** `handleCheckAnswer`: a blank answer (or no current card) changes
      nothing. Otherwise the answer is graded; a correct one counts as
      correct, marks the card known and posts mastery + 10 capped at 100; a
      wrong one counts as incorrect and adds an attempt to the card. */
  function Check(s: Session, answer: string): (r: (Session, Option<real>))
    ensures Trim(answer) == [] || s.index >= |s.deck| ==> r == (s, None)
    ensures Trim(answer) != [] && s.index < |s.deck| ==> Graded(s, answer, r.0, r.1)
  {
    if Trim(answer) == [] || s.index >= |s.deck| then (s, None)
    else Grade(s, answer)
  }

  /** The effect of checking a typed answer for the current card `c`: the
      comparison is shown, and `c` alone changes status. A right answer
      marks it known, counts a success and posts its mastery + 10 (at most
      100); a wrong one adds an attempt and counts a miss. */
  predicate Graded(s: Session, answer: string, t: Session, posted: Option<real>)
    requires s.index < |s.deck|
  {
    var c := s.deck[s.index];
    var ok := Normalize(answer) == Normalize(Expected(s, c));
    && t.result == Some(Compare(answer, Expected(s, c)))
    && t.deck == s.deck && t.index == s.index && t.completed == s.completed
    && t.status.Keys == s.status.Keys + {c.id}
    && (forall id :: id in s.status && id != c.id ==> t.status[id] == s.status[id])
    && (ok ==> t.status[c.id] == CardStatus(true, StatusOf(s, c.id).attempts)
               && t.correctCount == s.correctCount + 1 && t.incorrectCount == s.incorrectCount
               && posted == Some(if c.mastery + 10.0 < 100.0 then c.mastery + 10.0 else 100.0))
    && (!ok ==> t.status[c.id] == CardStatus(StatusOf(s, c.id).known, StatusOf(s, c.id).attempts + 1)
                && t.incorrectCount == s.incorrectCount + 1 && t.correctCount == s.correctCount
                && posted == None)
  }

  function Grade(s: Session, answer: string): (r: (Session, Option<real>))
    requires s.index < |s.deck|
    ensures Graded(s, answer, r.0, r.1)
  {
    var c := s.deck[s.index];
    var cmp := Compare(answer, Expected(s, c));
    var st := StatusOf(s, c.id);
    if cmp.isCorrect then
      (s.(result := Some(cmp), correctCount := s.correctCount + 1,
          status := s.status[c.id := CardStatus(true, st.attempts)]),
       Some(if c.mastery + 10.0 < 100.0 then c.mastery + 10.0 else 100.0))
    else
      (s.(result := Some(cmp), incorrectCount := s.incorrectCount + 1,
          status := s.status[c.id := CardStatus(st.known, st.attempts + 1)]),
       None)
  }

  /** `handleSkip`: counts a miss, adds an attempt, and shows the expected
      answer as all 'missing'; the deck waits for `Continue`. */
  function Skip(s: Session): (t: Session)
    requires s.index < |s.deck|
    ensures var c := s.deck[s.index];
      && t.status == s.status[c.id := CardStatus(StatusOf(s, c.id).known, StatusOf(s, c.id).attempts + 1)]
      && t.incorrectCount == s.incorrectCount + 1 && t.correctCount == s.correctCount
      && t.result == Some(SkipResult(Expected(s, c))) && !t.result.value.isCorrect
      && t.deck == s.deck && t.index == s.index
  {
    var c := s.deck[s.index];
    var st := StatusOf(s, c.id);
    s.(status := s.status[c.id := CardStatus(st.known, st.attempts + 1)],
       incorrectCount := s.incorrectCount + 1,
       result := Some(SkipResult(Expected(s, c))))
  }

  /** `handleContinue`: after a correct answer, or always in test mode, the
      card leaves the deck; the last card ends the session and reports the
      status, leaving the deck as it was. Otherwise the card is requeued
      `offset` places ahead. */
  function Continue(s: Session, testMode: bool, offset: nat): (t: Session)
    requires 3 <= offset <= 5
    ensures s.index >= |s.deck| ==> t == s
    ensures t.status == s.status && t.correctCount == s.correctCount && t.incorrectCount == s.incorrectCount
    ensures s.index < |s.deck| && Passed(s, testMode) ==>
      && (t.completed <==> s.completed || |s.deck| == 1)
      && (|s.deck| == 1 ==> t.deck == s.deck && t.reported == Some(s.status))
      && (|s.deck| > 1 ==> multiset(t.deck) + multiset{s.deck[s.index]} == multiset(s.deck)
                           && t.index < |t.deck| && t.result == None)
    ensures s.index < |s.deck| && !Passed(s, testMode) ==>
      && multiset(t.deck) == multiset(s.deck) + multiset{s.deck[s.index]}
      && t.index < |t.deck| && t.result == None && t.completed == s.completed
      && (exists p :: t.index <= p < |t.deck| && t.deck[p] == s.deck[s.index])
  {
    if s.index >= |s.deck| then s
    else if Passed(s, testMode) then
      match Retire(s.deck, s.index)
      case Finished => s.(completed := true, reported := Some(s.status))
      case Next(d, i) => s.(deck := d, index := i, result := None)
    else
      RequeueShowsAgain(s.deck, s.index, offset);
      var (d, i) := Requeue(s.deck, s.index, offset);
      s.(deck := d, index := i, result := None)
  }

  /** The card on screen has been dealt with: answered correctly, or any
      answer in test mode. */
  predicate Passed(s: Session, testMode: bool) {
    (s.result.Some? && s.result.value.isCorrect) || testMode
  }

  /** `handleRestart` as written: it rebuilds the status and the shuffle
      from the deck it finds. After a completion that deck is only the last
      card, because the final `Continue` returns before the deck is updated. */
  function RestartAsWritten(s: Session, order: seq<Flashcard>): (t: Session)
    requires multiset(order) == multiset(s.deck)
    ensures t.deck == order && t.index == 0 && !t.completed && t.result == None
    ensures forall id :: id in t.status <==> HasCard(s.deck, id)
    ensures forall id :: id in t.status ==> t.status[id] == Fresh
    ensures t.correctCount == 0 && t.incorrectCount == 0
  {
    s.(deck := order, index := 0, status := InitStatus(s.deck), correctCount := 0, incorrectCount := 0,
       result := None, completed := false)
  }

  /** Restarting a finished session practises one card, however many the
      session held. */
  lemma {:induction false} RestartAfterCompletionShrinks(s: Session, offset: nat, order: seq<Flashcard>)
    requires Valid(s) && !s.completed && 3 <= offset <= 5
    requires Continue(s, false, offset).completed
    requires multiset(order) == multiset(Continue(s, false, offset).deck)
    ensures |RestartAsWritten(Continue(s, false, offset), order).deck| == 1
    ensures RestartAsWritten(Continue(s, false, offset), order).status.Keys == {s.deck[0].id}
  {
    var t := Continue(s, false, offset);
    assert |s.deck| == 1 && t.deck == s.deck;
    assert |order| == |multiset(order)| == |multiset(s.deck)| == 1;
    var keys := RestartAsWritten(t, order).status.Keys;
    forall id ensures id in keys <==> id == s.deck[0].id {
      if HasCard(s.deck, id) {
        var x :| x in s.deck && x.id == id;
      }
      assert s.deck[0] in s.deck;
    }
  }

  /** `handleRestart` as intended: all the cards the session was loaded
      with, fresh again, in the new shuffle `order`. */
  function Restart(s: Session, order: seq<Flashcard>): (t: Session)
    requires multiset(order) == multiset(s.cards)
    ensures t.deck == order && t.index == 0 && !t.completed && t.result == None && t.reported == None
    ensures forall id :: id in t.status <==> HasCard(s.cards, id)
    ensures forall id :: id in t.status ==> t.status[id] == Fresh
    ensures t.correctCount == 0 && t.incorrectCount == 0
  {
    s.(deck := order, index := 0, status := InitStatus(s.cards), correctCount := 0, incorrectCount := 0,
       result := None, completed := false, reported := None)
  }

  /** The intended restart is as good as a new start on the shuffled cards. */
  lemma {:induction false} RestartIsFreshStart(s: Session, order: seq<Flashcard>)
    requires multiset(order) == multiset(s.cards) && s.cards != []
    ensures Valid(Restart(s, order)) && Earned(Restart(s, order))
    ensures Restart(s, order).status == Start(order, s.swapped).status
  {
    ShuffledStatus(s.cards, order);
    assert order != [] by {
      assert |order| == |multiset(order)|;
    }
  }

  /** A shuffle holds the same cards, so it starts with the same status. */
  lemma {:induction false} ShuffledStatus(cards: seq<Flashcard>, order: seq<Flashcard>)
    requires multiset(order) == multiset(cards)
    ensures forall x :: x in order <==> x in cards
    ensures InitStatus(cards) == InitStatus(order)
  {
    forall x ensures x in order <==> x in cards {
      assert x in order <==> x in multiset(order);
      assert x in cards <==> x in multiset(cards);
    }
    var m, m' := InitStatus(cards), InitStatus(order);
    forall id ensures id in m <==> id in m' {
      if HasCard(order, id) {
        var x :| x in order && x.id == id;
        assert x in cards;
      }
      if HasCard(cards, id) {
        var x :| x in cards && x.id == id;
        assert x in order;
      }
    }
    assert m.Keys == m'.Keys;
  }

  /** `fetchData`, the start without pre-loaded cards: the fetched cards in
      the shuffle `order`, each with a fresh status. Unlike the pre-loaded
      start, an empty list does not end the session. */
  function Fetch(cards: seq<Flashcard>, order: seq<Flashcard>, swapped: bool): (s: Session)
    requires multiset(order) == multiset(cards)
    ensures s.cards == order && s.deck == order && s.index == 0
    ensures !s.completed && s.result == None && s.reported == None
    ensures forall id :: id in s.status <==> HasCard(cards, id)
    ensures forall id :: id in s.status ==> s.status[id] == Fresh
    ensures s.correctCount == 0 && s.incorrectCount == 0
  {
    Session(order, order, 0, InitStatus(cards), 0, 0, None, false, swapped, None)
  }

  /** A non-empty fetch is the pre-loaded start on the shuffled cards; an
      empty one leaves an open session with nothing to study. Either way
      the session invariants hold. */
  lemma {:induction false} FetchIsStart(cards: seq<Flashcard>, order: seq<Flashcard>, swapped: bool)
    requires multiset(order) == multiset(cards)
    ensures cards != [] ==> Fetch(cards, order, swapped) == Start(order, swapped)
    ensures cards == [] ==> Fetch(cards, order, swapped).deck == [] && !Fetch(cards, order, swapped).completed
    ensures Valid(Fetch(cards, order, swapped)) && Earned(Fetch(cards, order, swapped)) && Tally(Fetch(cards, order, swapped))
  {
    ShuffledStatus(cards, order);
    assert |order| == |multiset(order)| == |cards|;
    SumAttemptsFresh(InitStatus(cards), Ids(order));
  }

  /** The words answered right without a single miss. */
  function FirstTryIds(status: map<int, CardStatus>): (r: set<int>)
    ensures forall id :: id in r <==> id in status && status[id].known && status[id].attempts == 0
  {
    set id | id in status && status[id].known && status[id].attempts == 0
  }

  /** The completion screen: words practised, words right on the first
      attempt, answers given, and the share of correct answers. */
  function GetStats(s: Session): (st: Stats)
    ensures st.totalWords == |s.status.Keys|
    ensures st.firstTryCorrect == |FirstTryIds(s.status)| <= st.totalWords
    ensures st.totalAttempts == s.correctCount + s.incorrectCount
    ensures st.totalAttempts > 0 ==> st.accuracy * (st.totalAttempts as real) == (s.correctCount as real) * 100.0
    ensures 0.0 <= st.accuracy <= 100.0
  {
    SubsetCard(FirstTryIds(s.status), s.status.Keys);
    Stats(|s.status.Keys|, |FirstTryIds(s.status)|, s.correctCount + s.incorrectCount,
          Percent(s.correctCount, s.correctCount + s.incorrectCount))
  }

  // ---- the session invariant ------------------------------------------------

  /** The shape every reachable session keeps: the index is on a card, and
      every card in the deck is one of the loaded cards and has a status
      entry, and every status entry belongs to a loaded card. */
  predicate Valid(s: Session) {
    && (s.deck != [] ==> s.index < |s.deck|)
    && (forall c :: c in s.deck ==> c in s.cards && c.id in s.status)
    && (forall id :: id in s.status ==> HasCard(s.cards, id))
  }

  /** The misses recorded per card add up to the incorrect counter. */
  predicate Tally(s: Session) {
    SumAttempts(s.status, Ids(s.cards)) == s.incorrectCount
  }

  lemma {:induction false} StartTally(cards: seq<Flashcard>, swapped: bool)
    ensures Tally(Start(cards, swapped))
  {
    SumAttemptsFresh(Start(cards, swapped).status, Ids(cards));
  }

  lemma {:induction false} CheckTally(s: Session, answer: string)
    requires Valid(s) && Tally(s)
    ensures Tally(Check(s, answer).0)
  {
    if Trim(answer) != [] && s.index < |s.deck| {
      var c := s.deck[s.index];
      InIds(s.cards, c);
      SumAttemptsUpdate(s.status, Ids(s.cards), c.id, Check(s, answer).0.status[c.id]);
    }
  }

  lemma {:induction false} SkipTally(s: Session)
    requires Valid(s) && Tally(s) && s.index < |s.deck|
    ensures Tally(Skip(s))
  {
    var c := s.deck[s.index];
    InIds(s.cards, c);
    SumAttemptsUpdate(s.status, Ids(s.cards), c.id, Skip(s).status[c.id]);
  }

  lemma ContinueTally(s: Session, testMode: bool, offset: nat)
    requires Tally(s) && 3 <= offset <= 5
    ensures Tally(Continue(s, testMode, offset))
  {
  }

  lemma {:induction false} RestartTally(s: Session, order: seq<Flashcard>)
    requires multiset(order) == multiset(s.cards)
    ensures Tally(Restart(s, order))
  {
    SumAttemptsFresh(Restart(s, order).status, Ids(s.cards));
  }

  /** Outside test mode a card leaves the deck only once it has been
      answered correctly, and a correct verdict on screen belongs to a card
      that is known. */
  predicate Earned(s: Session) {
    && (forall id :: id in s.status && !HasCard(s.deck, id) ==> s.status[id].known)
    && (s.result.Some? && s.result.value.isCorrect && s.index < |s.deck| ==> StatusOf(s, s.deck[s.index].id).known)
  }

  lemma StartValid(cards: seq<Flashcard>, swapped: bool)
    ensures Valid(Start(cards, swapped)) && Earned(Start(cards, swapped))
  {
  }

  lemma {:induction false} CheckKeeps(s: Session, answer: string)
    requires Valid(s) && Earned(s)
    ensures Valid(Check(s, answer).0) && Earned(Check(s, answer).0)
  {
    var t := Check(s, answer).0;
    if Trim(answer) != [] && s.index < |s.deck| {
      assert forall c :: c in t.deck ==> c.id in t.status;
      forall id | id in t.status && !HasCard(t.deck, id)
        ensures t.status[id].known
      {
        assert id != s.deck[s.index].id;
      }
    }
  }

  lemma {:induction false} SkipKeeps(s: Session)
    requires Valid(s) && Earned(s) && s.index < |s.deck|
    ensures Valid(Skip(s)) && Earned(Skip(s))
  {
    var t := Skip(s);
    forall id | id in t.status && !HasCard(t.deck, id)
      ensures t.status[id].known
    {
      assert id != s.deck[s.index].id;
    }
  }

  lemma {:induction false} ContinueKeeps(s: Session, offset: nat)
    requires Valid(s) && Earned(s) && 3 <= offset <= 5
    ensures Valid(Continue(s, false, offset)) && Earned(Continue(s, false, offset))
  {
    if s.index < |s.deck| {
      if Passed(s, false) {
        RetireKeeps(s, offset);
      } else {
        RequeueKeeps(s, offset);
      }
    }
  }

  lemma {:induction false} RetireKeeps(s: Session, offset: nat)
    requires Valid(s) && Earned(s) && 3 <= offset <= 5
    requires s.index < |s.deck| && Passed(s, false)
    ensures Valid(Continue(s, false, offset)) && Earned(Continue(s, false, offset))
  {
    var t := Continue(s, false, offset);
    var c := s.deck[s.index];
    if |s.deck| > 1 {
      var d := t.deck;
      assert multiset(d) + multiset{c} == multiset(s.deck);
      forall x | x in d
        ensures x in s.deck
      {
        assert x in multiset(d);
      }
      forall x | x in s.deck && x != c
        ensures x in d
      {
        assert x in multiset(s.deck);
      }
      assert t.status == s.status;
      assert StatusOf(s, c.id).known;
    }
  }

  lemma {:induction false} RequeueKeeps(s: Session, offset: nat)
    requires Valid(s) && Earned(s) && 3 <= offset <= 5
    requires s.index < |s.deck| && !Passed(s, false)
    ensures Valid(Continue(s, false, offset)) && Earned(Continue(s, false, offset))
  {
    var t := Continue(s, false, offset);
    forall x | x in t.deck
      ensures x in s.deck
    {
      assert x in multiset(t.deck);
    }
    forall x | x in s.deck
      ensures x in t.deck
    {
      assert x in multiset(s.deck);
    }
  }

  /** Outside test mode the session ends only after every word has been
      answered correctly. */
  lemma {:induction false} CompletionMeansAllKnown(s: Session, offset: nat)
    requires Valid(s) && Earned(s) && !s.completed && 3 <= offset <= 5
    requires Continue(s, false, offset).completed
    ensures forall id :: id in s.status ==> s.status[id].known
    ensures Continue(s, false, offset).reported == Some(s.status)
  {
    var c := s.deck[s.index];
    assert |s.deck| == 1 && s.index == 0;
    forall id | id in s.status
      ensures s.status[id].known
    {
      if HasCard(s.deck, id) {
        var x :| x in s.deck && x.id == id;
        assert x == s.deck[0];
      }
    }
  }

  /** A session finished outside test mode got every word right at the
      first attempt exactly when it recorded no miss. */
  lemma {:induction false} FlawlessExactlyWithoutMisses(s: Session, offset: nat)
    requires Valid(s) && Earned(s) && Tally(s) && !s.completed && 3 <= offset <= 5
    requires Continue(s, false, offset).completed
    ensures var st := GetStats(Continue(s, false, offset));
      st.firstTryCorrect == st.totalWords <==> s.incorrectCount == 0
  {
    var m := s.status;
    CompletionMeansAllKnown(s, offset);
    SumAttemptsZero(m, Ids(s.cards));
    forall id | id in m
      ensures id in Ids(s.cards)
    {
      var c :| c in s.cards && c.id == id;
      InIds(s.cards, c);
    }
    if s.incorrectCount == 0 {
      assert FirstTryIds(m) == m.Keys;
    } else {
      var id :| id in Ids(s.cards) && id in m && m[id].attempts != 0;
      assert id !in FirstTryIds(m);
      assert FirstTryIds(m) < m.Keys;
      SubsetCard(FirstTryIds(m), m.Keys - {id});
    }
  }
}
