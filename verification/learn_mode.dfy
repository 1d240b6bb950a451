/** The learn mode: flashcards are swiped right (known) or left (not yet);
    a known card leaves the deck, an unknown one is shown again a few cards
    later, by the rules of `DrillDeck`. */
module LearnMode {
  import opened Common
  import opened DrillDeck

  datatype Session = Session(
    /** the cards as fetched, before the shuffle */
    cards: seq<Flashcard>,
    deck: seq<Flashcard>,
    index: nat,
    status: map<int, CardStatus>,
    correctCount: nat,
    incorrectCount: nat,
    completed: bool)

  /** `fetchData`: a fresh status for every card, the deck in the shuffled
      `order`. */
  function Start(cards: seq<Flashcard>, order: seq<Flashcard>): (s: Session)
    requires multiset(order) == multiset(cards)
    ensures s.deck == order && |s.deck| == |cards| && s.index == 0 && !s.completed
    ensures forall id :: id in s.status <==> HasCard(cards, id)
    ensures forall id :: id in s.status ==> s.status[id] == Fresh
    ensures s.correctCount == 0 && s.incorrectCount == 0
  {
    assert |order| == |multiset(order)| == |cards|;
    Session(cards, order, 0, InitStatus(cards), 0, 0, false)
  }

  function StatusOf(s: Session, id: int): CardStatus {
    if id in s.status then s.status[id] else Fresh
  }

  /** The card's new status: known exactly when swiped right, and one more
      attempt whichever the direction. */
  function Mark(s: Session, id: int, right: bool): (t: Session)
    ensures t.status == s.status[id := CardStatus(right, StatusOf(s, id).attempts + 1)]
    ensures right ==> t.correctCount == s.correctCount + 1 && t.incorrectCount == s.incorrectCount
    ensures !right ==> t.incorrectCount == s.incorrectCount + 1 && t.correctCount == s.correctCount
    ensures t.cards == s.cards && t.deck == s.deck && t.index == s.index && t.completed == s.completed
  {
    var st := CardStatus(right, StatusOf(s, id).attempts + 1);
    if right then s.(status := s.status[id := st], correctCount := s.correctCount + 1)
    else s.(status := s.status[id := st], incorrectCount := s.incorrectCount + 1)
  }

  /** `handleSwipe`: nothing without a current card. A right swipe posts
      mastery + 10 capped at 100 and retires the card; retiring the last one
      completes the session and leaves the deck as it was. A left swipe
      requeues the card `offset` places ahead. */
  function Swipe(s: Session, right: bool, offset: nat): (r: (Session, Option<real>))
    requires 3 <= offset <= 5
    ensures s.index >= |s.deck| ==> r == (s, None)
    ensures s.index < |s.deck| && right ==> RightSwiped(s, r.0, r.1)
    ensures s.index < |s.deck| && !right ==> LeftSwiped(s, r.0, r.1)
  {
    if s.index >= |s.deck| then (s, None)
    else if right then SwipeRight(s)
    else SwipeLeft(s, offset)
  }

  /** The effect of a right swipe on the current card `c`: marked known,
      its mastery + 10 (at most 100) posted, and the card retired; the
      session completes when it was the last one, and the deck is then
      left as it was. */
  predicate RightSwiped(s: Session, t: Session, posted: Option<real>)
    requires s.index < |s.deck|
  {
    var c := s.deck[s.index];
    && t.status == Mark(s, c.id, true).status
    && t.correctCount == s.correctCount + 1 && t.incorrectCount == s.incorrectCount
    && t.cards == s.cards
    && posted == Some(Min100(c.mastery + 10.0))
    && (t.completed <==> s.completed || |s.deck| == 1)
    && (|s.deck| == 1 ==> t.deck == s.deck)
    && (|s.deck| > 1 ==> multiset(t.deck) + multiset{c} == multiset(s.deck) && t.index < |t.deck|)
  }

  /** The effect of a left swipe on the current card `c`: marked not
      known, nothing posted, and a second copy of `c` put in the deck at or
      after the next index. */
  predicate LeftSwiped(s: Session, t: Session, posted: Option<real>)
    requires s.index < |s.deck|
  {
    var c := s.deck[s.index];
    && t.status == Mark(s, c.id, false).status
    && t.correctCount == s.correctCount && t.incorrectCount == s.incorrectCount + 1
    && t.cards == s.cards
    && posted == None && t.completed == s.completed
    && multiset(t.deck) == multiset(s.deck) + multiset{c} && t.index < |t.deck|
    && (exists p :: t.index <= p < |t.deck| && t.deck[p] == c)
  }

  function SwipeRight(s: Session): (r: (Session, Option<real>))
    requires s.index < |s.deck|
    ensures RightSwiped(s, r.0, r.1)
  {
    var c := s.deck[s.index];
    var m := Mark(s, c.id, true);
    match Retire(s.deck, s.index)
    case Finished => (m.(completed := true), Some(Min100(c.mastery + 10.0)))
    case Next(d, i) => (m.(deck := d, index := i), Some(Min100(c.mastery + 10.0)))
  }

  function SwipeLeft(s: Session, offset: nat): (r: (Session, Option<real>))
    requires s.index < |s.deck| && 3 <= offset <= 5
    ensures LeftSwiped(s, r.0, r.1)
  {
    var c := s.deck[s.index];
    var m := Mark(s, c.id, false);
    RequeueShowsAgain(s.deck, s.index, offset);
    var (d, i) := Requeue(s.deck, s.index, offset);
    (m.(deck := d, index := i), None)
  }

  function Min100(x: real): real { if x < 100.0 then x else 100.0 }

  /** `handlePrevious`: one card back, never before the first. */
  function Previous(s: Session): (t: Session)
    ensures t.index == (if s.index > 0 then s.index - 1 else s.index)
    ensures t.deck == s.deck && t.status == s.status
    ensures s.index < |s.deck| ==> t.index < |t.deck|
  {
    if s.index > 0 then s.(index := s.index - 1) else s
  }

  /** `handleNext`: one card on, never past the last. */
  function Next(s: Session): (t: Session)
    ensures t.index == (if s.index + 1 < |s.deck| then s.index + 1 else s.index)
    ensures t.deck == s.deck && t.status == s.status
    ensures s.index < |s.deck| ==> t.index < |t.deck|
  {
    if s.index + 1 < |s.deck| then s.(index := s.index + 1) else s
  }

  /** `handleShuffle`: the deck in a new order, from its first card. */
  function Shuffle(s: Session, order: seq<Flashcard>): (t: Session)
    requires multiset(order) == multiset(s.deck)
    ensures multiset(t.deck) == multiset(s.deck) && |t.deck| == |s.deck| && t.index == 0
    ensures t.status == s.status && t.completed == s.completed
  {
    assert |order| == |multiset(order)|;
    s.(deck := order, index := 0)
  }

  // ---- the completion effect and progress -----------------------------------

  function KnownIds(status: map<int, CardStatus>): (r: set<int>)
    ensures r <= status.Keys
    ensures forall id :: id in r <==> id in status && status[id].known
  {
    set id | id in status && status[id].known
  }

  /** The effect on `knownCards` and `totalCards` as written: the session is
      declared complete once the number of known cards equals the length of
      the deck that remains. */
  function SettleAsWritten(s: Session): (t: Session)
    ensures t.completed <==> s.completed || (|s.deck| > 0 && |KnownIds(s.status)| == |s.deck|)
    ensures t.deck == s.deck && t.status == s.status
  {
    if |s.deck| > 0 && |KnownIds(s.status)| == |s.deck| then s.(completed := true) else s
  }

  /** The progress bar as written: known cards over the remaining deck. */
  function ProgressAsWritten(s: Session): real {
    Percent(|KnownIds(s.status)|, |s.deck|)
  }

  /** Two cards, one right swipe: one card is known and one remains, so the
      session is declared complete although the second card was never
      swiped, and the progress bar already shows 100. */
  lemma {:induction false} PrematureCompletion()
    ensures var a, b := Flashcard(1, "a", "A", 0.0), Flashcard(2, "b", "B", 0.0);
      var s := Swipe(Start([a, b], [a, b]), true, 3).0;
      && !s.completed && SettleAsWritten(s).completed
      && !SettleAsWritten(s).status[2].known
      && ProgressAsWritten(s) == 100.0
  {
    var a, b := Flashcard(1, "a", "A", 0.0), Flashcard(2, "b", "B", 0.0);
    var s0 := Start([a, b], [a, b]);
    forall id ensures HasCard([a, b], id) <==> id == 1 || id == 2 {
      assert a in [a, b] && b in [a, b];
    }
    assert forall id :: id in s0.status <==> id == 1 || id == 2;
    assert s0.status[1] == Fresh && s0.status[2] == Fresh;
    assert s0.status == map[1 := Fresh, 2 := Fresh];
    var s := Swipe(s0, true, 3).0;
    assert s.deck == [b];
    assert s.status == map[1 := CardStatus(true, 1), 2 := Fresh];
    assert KnownIds(s.status) == {1};
  }

  /** The completion effect as intended: complete once every card of the
      session is known. */
  function Settle(s: Session): (t: Session)
    ensures t.completed <==> s.completed || (|s.status| > 0 && |KnownIds(s.status)| == |s.status|)
    ensures t.deck == s.deck && t.status == s.status
    ensures !s.completed && t.completed ==> forall id :: id in t.status ==> t.status[id].known
  {
    if |s.status| > 0 && |KnownIds(s.status)| == |s.status| then
      SubsetCardEq(KnownIds(s.status), s.status.Keys);
      s.(completed := true)
    else s
  }

  /** The progress bar as intended: known cards over all cards. */
  function Progress(s: Session): (p: real)
    ensures 0.0 <= p <= 100.0
    ensures |s.status| > 0 ==> (p == 100.0 <==> forall id :: id in s.status ==> s.status[id].known)
  {
    ProgressFacts(s.status);
    Percent(|KnownIds(s.status)|, |s.status|)
  }

  lemma {:induction false} ProgressFacts(status: map<int, CardStatus>)
    ensures |KnownIds(status)| <= |status|
    ensures |KnownIds(status)| == |status| <==> forall id :: id in status ==> status[id].known
  {
    SubsetCard(KnownIds(status), status.Keys);
    if |KnownIds(status)| == |status| {
      SubsetCardEq(KnownIds(status), status.Keys);
    }
    if forall id :: id in status ==> status[id].known {
      assert KnownIds(status) == status.Keys;
    }
  }

  // ---- restart ----------------------------------------------------------------

  /** `handleRestart` as written: statuses and deck rebuilt from the deck
      on screen, which after a completion holds only the last card. */
  function RestartAsWritten(s: Session, order: seq<Flashcard>): (t: Session)
    requires multiset(order) == multiset(s.deck)
    ensures t.deck == order && t.index == 0 && !t.completed
    ensures forall id :: id in t.status <==> HasCard(s.deck, id)
    ensures forall id :: id in t.status ==> t.status[id] == Fresh
    ensures t.correctCount == 0 && t.incorrectCount == 0
  {
    Session(s.cards, order, 0, InitStatus(s.deck), 0, 0, false)
  }

  lemma {:induction false} RestartAfterCompletionShrinks(s: Session, offset: nat, order: seq<Flashcard>)
    requires !s.completed && 3 <= offset <= 5
    requires Swipe(s, true, offset).0.completed
    requires multiset(order) == multiset(Swipe(s, true, offset).0.deck)
    ensures |RestartAsWritten(Swipe(s, true, offset).0, order).deck| == 1
  {
    assert |order| == |multiset(order)|;
  }

  /** `handleRestart` as intended: every fetched card again, all fresh. */
  function Restart(s: Session, order: seq<Flashcard>): (t: Session)
    requires multiset(order) == multiset(s.cards)
    ensures t == Start(s.cards, order)
  {
    Start(s.cards, order)
  }

  // ---- invariants -------------------------------------------------------------

  /** The deck holds copies of loaded cards only, each with a status. */
  ghost predicate Valid(s: Session) {
    && (s.deck != [] ==> s.index < |s.deck|)
    && (forall c :: c in s.deck ==> c in s.cards)
    && (forall id :: id in s.status <==> HasCard(s.cards, id))
  }

  /** Every swipe is an attempt: the attempts add up to the two counters. */
  predicate Tally(s: Session) {
    SumAttempts(s.status, Ids(s.cards)) == s.correctCount + s.incorrectCount
  }

  /** A card no longer in the deck was last swiped right. */
  predicate Earned(s: Session) {
    forall id :: id in s.status && !HasCard(s.deck, id) ==> s.status[id].known
  }

  /** Each right swipe takes one copy out and each left swipe adds one, so
      the deck is `n` plus the lefts minus the rights. */
  predicate Length(s: Session, n: nat) {
    |s.deck| + s.correctCount == n + s.incorrectCount
  }

  lemma {:induction false} StartInvariants(cards: seq<Flashcard>, order: seq<Flashcard>)
    requires multiset(order) == multiset(cards)
    ensures var s := Start(cards, order);
      Valid(s) && Tally(s) && Earned(s) && Length(s, |cards|)
  {
    var s := Start(cards, order);
    forall c | c in order ensures c in cards {
      assert c in multiset(order);
    }
    forall id | id in s.status ensures HasCard(order, id) {
      var c :| c in cards && c.id == id;
      assert c in multiset(cards);
    }
    SumAttemptsFresh(s.status, Ids(cards));
  }

  lemma {:induction false} SwipeKeeps(s: Session, right: bool, offset: nat)
    requires Valid(s) && Tally(s) && Earned(s) && 3 <= offset <= 5
    ensures var t := Swipe(s, right, offset).0; Valid(t) && Tally(t) && Earned(t)
  {
    if s.index < |s.deck| {
      var c := s.deck[s.index];
      assert c in s.cards;
      InIds(s.cards, c);
      SwipeTally(s, right, offset);
      if right {
        RightKeeps(s, offset);
      } else {
        LeftKeeps(s, offset);
      }
    }
  }

  lemma {:induction false} SwipeTally(s: Session, right: bool, offset: nat)
    requires Tally(s) && s.index < |s.deck| && 3 <= offset <= 5
    requires s.deck[s.index].id in s.status && s.deck[s.index].id in Ids(s.cards)
    ensures Tally(Swipe(s, right, offset).0)
  {
    var t := Swipe(s, right, offset).0;
    var id := s.deck[s.index].id;
    SumAttemptsUpdate(s.status, Ids(s.cards), id, t.status[id]);
  }

  lemma {:induction false} RightKeeps(s: Session, offset: nat)
    requires Valid(s) && Earned(s) && s.index < |s.deck| && 3 <= offset <= 5
    ensures var t := Swipe(s, true, offset).0; Valid(t) && Earned(t)
  {
    var t := Swipe(s, true, offset).0;
    var c := s.deck[s.index];
    assert c in s.cards;
    assert t.status.Keys == s.status.Keys;
    if |s.deck| > 1 {
      RetireMembers(s.deck, s.index);
      GoneIds(s.deck, t.deck, c);
    }
  }

  /** An id absent after a step that kept every card but `c` was absent
      before, unless it is `c`'s own. */
  lemma GoneIds(deck: seq<Flashcard>, d: seq<Flashcard>, c: Flashcard)
    requires forall x :: x in deck && x != c ==> x in d
    ensures forall id :: !HasCard(d, id) && id != c.id ==> !HasCard(deck, id)
  {
  }

  lemma {:induction false} LeftKeeps(s: Session, offset: nat)
    requires Valid(s) && Earned(s) && s.index < |s.deck| && 3 <= offset <= 5
    ensures var t := Swipe(s, false, offset).0; Valid(t) && Earned(t)
  {
    var t := Swipe(s, false, offset).0;
    var c := s.deck[s.index];
    assert c in s.cards;
    assert t.status.Keys == s.status.Keys;
    RequeueMembers(s.deck, s.index, offset);
    assert forall id :: HasCard(t.deck, id) <==> HasCard(s.deck, id);
  }

  /** The deck length follows the swipe count, and the session ends only
      when every copy, the first ones and the requeued ones, has been
      swiped right. */
  lemma {:induction false} SwipeLength(s: Session, right: bool, offset: nat, n: nat)
    requires Length(s, n) && !s.completed && 3 <= offset <= 5
    ensures var t := Swipe(s, right, offset).0;
      && (!t.completed ==> Length(t, n))
      && (t.completed ==> |t.deck| == 1 && t.correctCount == n + t.incorrectCount)
  {
    var t := Swipe(s, right, offset).0;
    if s.index < |s.deck| {
      var c := s.deck[s.index];
      if right && |s.deck| > 1 {
        assert |multiset(t.deck)| + 1 == |multiset(s.deck)|;
      } else if !right {
        assert |multiset(t.deck)| == |multiset(s.deck)| + 1;
      }
    }
  }

  /** The swipe that ends the session leaves every card known. */
  lemma {:induction false} CompletionMeansAllKnown(s: Session, offset: nat)
    requires Valid(s) && Earned(s) && !s.completed && 3 <= offset <= 5
    requires Swipe(s, true, offset).0.completed
    ensures var t := Swipe(s, true, offset).0; forall id :: id in t.status ==> t.status[id].known
  {
    var c := s.deck[s.index];
    forall id | id in s.status && HasCard(s.deck, id) ensures id == c.id {
      var x :| x in s.deck && x.id == id;
      assert x == s.deck[0];
    }
  }

  /** A left swipe forgets an earlier right swipe of the same card. */
  lemma LeftSwipeForgets(s: Session, offset: nat)
    requires s.index < |s.deck| && 3 <= offset <= 5
    ensures var c := s.deck[s.index];
      Swipe(s, false, offset).0.status[c.id] == CardStatus(false, StatusOf(s, c.id).attempts + 1)
  {
  }
}
