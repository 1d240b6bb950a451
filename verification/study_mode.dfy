/** The legacy study page: swipe right to retire a card, left to move on
    with the card kept in place; every swipe moves the card's mastery. */
module StudyMode {
  import opened Common

  datatype Session = Session(deck: seq<Flashcard>, index: nat, correct: nat, incorrect: nat, completed: bool)

  /** `fetchFlashcards`: the cards are shuffled (by `order`) only in the
      learn mode. */
  function Load(cards: seq<Flashcard>, learn: bool, order: seq<Flashcard>): (s: Session)
    requires multiset(order) == multiset(cards)
    ensures learn ==> s.deck == order
    ensures !learn ==> s.deck == cards
    ensures multiset(s.deck) == multiset(cards)
    ensures s.index == 0 && s.correct == 0 && s.incorrect == 0 && !s.completed
  {
    Session(if learn then order else cards, 0, 0, 0, false)
  }

  /** The mastery posted after a swipe: ten up to at most 100 when right,
      five down to at least 0 when left. */
  function MasteryStep(m: real, right: bool): (r: real)
    ensures right ==> r <= 100.0 && (m + 10.0 <= 100.0 ==> r == m + 10.0)
    ensures right && m + 10.0 >= 100.0 ==> r == 100.0
    ensures !right ==> r >= 0.0 && (m - 5.0 >= 0.0 ==> r == m - 5.0)
    ensures !right && m - 5.0 <= 0.0 ==> r == 0.0
    ensures 0.0 <= m <= 100.0 ==> 0.0 <= r <= 100.0
    ensures right ==> r >= m || m > 100.0
    ensures !right ==> r <= m || m < 0.0
  {
    if right then Min100(m + 10.0) else (if m - 5.0 > 0.0 then m - 5.0 else 0.0)
  }

  function Min100(x: real): real { if x < 100.0 then x else 100.0 }

  /** `handleSwipe` on the current card. A right swipe removes it (the last
      one completes the session, the deck left as it was) and keeps the
      index in range; a left swipe moves to the next card, round to the
      first, without touching the deck. */
  function Swipe(s: Session, right: bool): (r: (Session, real))
    requires s.index < |s.deck|
    ensures var t := r.0;
      && r.1 == MasteryStep(s.deck[s.index].mastery, right)
      && t.correct + t.incorrect == s.correct + s.incorrect + 1
      && (right <==> t.correct == s.correct + 1)
    ensures right ==>
      var t := r.0;
      && (|s.deck| == 1 ==> t.completed && t.deck == s.deck)
      && (|s.deck| > 1 ==> t.deck == RemoveAt(s.deck, s.index) && t.index == Min(s.index, |t.deck| - 1)
                           && t.completed == s.completed)
    ensures !right ==>
      var t := r.0;
      && t.deck == s.deck && t.completed == s.completed
      && t.index == (if s.index + 1 < |s.deck| then s.index + 1 else 0)
  {
    var c := s.deck[s.index];
    var m := MasteryStep(c.mastery, right);
    if right then
      var rest := RemoveAt(s.deck, s.index);
      if |rest| == 0 then (s.(correct := s.correct + 1, completed := true), m)
      else (s.(deck := rest, index := Min(s.index, |rest| - 1), correct := s.correct + 1), m)
    else
      (s.(index := if s.index < |s.deck| - 1 then s.index + 1 else 0, incorrect := s.incorrect + 1), m)
  }

  /** Left swipes walk the deck round: after `k` of them the index is
      `(index + k) mod n`, written without `%` as a quotient `q` and a
      remainder below `n`. */
  lemma {:induction false} LeftSwipesCycle(s: Session, k: nat)
    requires s.index < |s.deck|
    ensures LeftSwipes(s, k).deck == s.deck
    ensures exists q: nat :: s.index + k == q * |s.deck| + LeftSwipes(s, k).index
  {
    if k == 0 {
      assert s.index + k == 0 * |s.deck| + s.index;
    } else {
      LeftSwipesCycle(s, k - 1);
      var n := |s.deck|;
      var p := LeftSwipes(s, k - 1);
      var q: nat :| s.index + (k - 1) == q * n + p.index;
      if p.index + 1 < n {
        assert s.index + k == q * n + LeftSwipes(s, k).index;
      } else {
        assert (q + 1) * n == q * n + n;
        assert s.index + k == (q + 1) * n + LeftSwipes(s, k).index;
      }
    }
  }

  function LeftSwipes(s: Session, k: nat): (t: Session)
    requires s.index < |s.deck|
    ensures t.deck == s.deck && t.index < |t.deck|
  {
    if k == 0 then s else Swipe(LeftSwipes(s, k - 1), false).0
  }

  /** While the session runs, every swipe either retired a card or left it
      in place: the deck plus the right swipes is the starting size. */
  lemma SwipeLength(s: Session, right: bool, n: nat)
    requires s.index < |s.deck| && !s.completed && |s.deck| + s.correct == n
    ensures var t := Swipe(s, right).0;
      && (!t.completed ==> |t.deck| + t.correct == n && t.index < |t.deck|)
      && (t.completed ==> t.correct == n)
  {
  }

  /** `handleSwap`: front and back exchanged on the current card only. */
  function Swap(s: Session): (t: Session)
    ensures |t.deck| == |s.deck| && t.index == s.index
    ensures forall i :: 0 <= i < |s.deck| && i != s.index ==> t.deck[i] == s.deck[i]
    ensures s.index < |s.deck| ==>
      var c := s.deck[s.index];
      t.deck[s.index] == c.(front := c.back, back := c.front)
  {
    s.(deck := seq(|s.deck|, i requires 0 <= i < |s.deck| =>
         if i == s.index then s.deck[i].(front := s.deck[i].back, back := s.deck[i].front) else s.deck[i]))
  }

  /** Swapping twice gives the deck back. */
  lemma {:induction false} SwapTwice(s: Session)
    ensures Swap(Swap(s)) == s
  {
    assert Swap(Swap(s)).deck == s.deck;
  }

  /** `handleShuffle`: a permutation of the deck, from the first card. */
  function Shuffle(s: Session, order: seq<Flashcard>): (t: Session)
    requires multiset(order) == multiset(s.deck)
    ensures multiset(t.deck) == multiset(s.deck) && |t.deck| == |s.deck| && t.index == 0
    ensures t.correct == s.correct && t.incorrect == s.incorrect
  {
    assert |order| == |multiset(order)|;
    s.(deck := order, index := 0)
  }
}
