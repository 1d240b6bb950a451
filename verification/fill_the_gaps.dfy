/** The fill-the-gaps session: one example sentence per card with its
    highlighted word blanked out; the learner types the word, graded by
    `PositionalDiff.Compare`, and the items move by the rules of `DrillDeck`. */
module FillTheGaps {
  import opened Common
  import opened TextNormalize
  import opened JsText
  import opened LcsDiff
  import PositionalDiff
  import opened DrillDeck

  /** The first entry of `highlighted_words`: a word, a character span, or
      something else (`null`, a number) that yields no word. */
  datatype Highlight = Word(text: string) | Span(startIndex: int, endIndex: int) | NoHighlight

  datatype Sentence = Sentence(id: int, text: string, highlights: seq<Highlight>)

  datatype GapItem = GapItem(
    flashcardId: int, front: string, back: string,
    sentenceId: int, sentence: string, correctWord: string, hint: string)

  /** The word to blank out of a sentence. A word highlight is looked up
      with `indexOf` and cut out again, which gives back the word itself
      whether or not it is found; a span is cut out with `substring`. */
  function ExtractWord(s: Sentence): (w: string)
    ensures s.highlights == [] || s.highlights[0].NoHighlight? ==> w == ""
    ensures s.highlights != [] && s.highlights[0].Word? ==> w == s.highlights[0].text
    ensures s.highlights != [] && s.highlights[0].Span? ==>
      w == Substring(s.text, s.highlights[0].startIndex, s.highlights[0].endIndex)
      && IndexOf(s.text, w) != -1
  {
    if s.highlights == [] then ""
    else match s.highlights[0]
      case Word(h) =>
        var start := IndexOf(s.text, h);
        if start != -1 then Substring(s.text, start, start + |h|) else h
      case Span(a, b) =>
        SubstringOccurs(s.text, a, b);
        Substring(s.text, a, b)
      case NoHighlight => ""
  }

  /** The item built for one card from its sentence list and the random
      pick: none without sentences or when the extracted word is empty. */
  function ItemFor(card: Flashcard, sentences: map<int, seq<Sentence>>, pick: nat): (r: Option<GapItem>)
    requires card.id in sentences && |sentences[card.id]| > 0 ==> pick < |sentences[card.id]|
    ensures r.Some? <==>
      card.id in sentences && |sentences[card.id]| > 0 && ExtractWord(sentences[card.id][pick]) != ""
    ensures r.Some? ==>
      var sen := sentences[card.id][pick];
      r.value == GapItem(card.id, card.front, card.back, sen.id, sen.text, ExtractWord(sen), card.front)
  {
    if card.id !in sentences || |sentences[card.id]| == 0 then None
    else
      var sen := sentences[card.id][pick];
      var w := ExtractWord(sen);
      if w != "" then Some(GapItem(card.id, card.front, card.back, sen.id, sen.text, w, card.front)) else None
  }

  predicate PicksFit(cards: seq<Flashcard>, sentences: map<int, seq<Sentence>>, choice: seq<nat>) {
    && |choice| == |cards|
    && forall k :: 0 <= k < |cards| && cards[k].id in sentences && |sentences[cards[k].id]| > 0 ==>
         choice[k] < |sentences[cards[k].id]|
  }

  /** The loop of `prepareGapItems`: the items of the cards that have one,
      in card order. */
  function GapItems(cards: seq<Flashcard>, sentences: map<int, seq<Sentence>>, choice: seq<nat>): (items: seq<GapItem>)
    requires PicksFit(cards, sentences, choice)
    ensures |items| <= |cards|
    ensures forall it :: it in items <==>
      exists k :: 0 <= k < |cards| && ItemFor(cards[k], sentences, choice[k]) == Some(it)
  {
    if cards == [] then []
    else
      var n := |cards| - 1;
      var init := GapItems(cards[..n], sentences, choice[..n]);
      var last := ItemFor(cards[n], sentences, choice[n]);
      assert forall it :: (exists k :: 0 <= k < n && ItemFor(cards[..n][k], sentences, choice[..n][k]) == Some(it))
                      <==> (exists k :: 0 <= k < n && ItemFor(cards[k], sentences, choice[k]) == Some(it)) by {
        forall k | 0 <= k < n ensures cards[..n][k] == cards[k] && choice[..n][k] == choice[k] {}
      }
      init + (if last.Some? then [last.value] else [])
  }

  lemma {:induction false} ItemFacts(cards: seq<Flashcard>, sentences: map<int, seq<Sentence>>, choice: seq<nat>, it: GapItem)
    requires PicksFit(cards, sentences, choice)
    ensures it in GapItems(cards, sentences, choice) ==>
      it.correctWord != "" && HasCard(cards, it.flashcardId) && it.hint == it.front
  {
    if it in GapItems(cards, sentences, choice) {
      var k :| 0 <= k < |cards| && ItemFor(cards[k], sentences, choice[k]) == Some(it);
      assert cards[k] in cards;
    }
  }

  /** `displaySentence`: the first occurrence of the word replaced by the
      blank. */
  function Display(it: GapItem): string {
    ReplaceFirst(it.sentence, it.correctWord, "______")
  }

  /** When the word occurs, the blank stands at its first occurrence and
      writing the word back into it restores the sentence; otherwise the
      sentence is shown without a blank. */
  lemma DisplayBlank(it: GapItem)
    ensures IndexOf(it.sentence, it.correctWord) == -1 ==> Display(it) == it.sentence
    ensures IndexOf(it.sentence, it.correctWord) != -1 ==>
      var i := IndexOf(it.sentence, it.correctWord);
      var before, after := it.sentence[..i], it.sentence[i + |it.correctWord|..];
      && Display(it) == before + "______" + after
      && before + it.correctWord + after == it.sentence
      && (forall j :: 0 <= j < i ==> !OccursAt(it.sentence, it.correctWord, j))
  {
  }

  // ---- the session ----------------------------------------------------------

  datatype Session = Session(
    cards: seq<Flashcard>,
    /** the shuffled items as prepared */
    loaded: seq<GapItem>,
    items: seq<GapItem>,
    index: nat,
    status: map<int, CardStatus>,
    correctCount: nat,
    incorrectCount: nat,
    result: Option<Comparison>,
    completed: bool,
    reported: Option<map<int, CardStatus>>)

  /** `prepareGapItems`: a status for every card (with or without a gap),
      the items in the shuffled `order`. Without any item, test mode reports
      an empty result at once; practice mode is left with nothing to do. */
  function Start(cards: seq<Flashcard>, sentences: map<int, seq<Sentence>>, choice: seq<nat>,
                 order: seq<GapItem>, testMode: bool): (s: Session)
    requires PicksFit(cards, sentences, choice)
    requires multiset(order) == multiset(GapItems(cards, sentences, choice))
    ensures s.items == s.loaded == order && s.index == 0 && !s.completed
    ensures forall id :: id in s.status <==> HasCard(cards, id)
    ensures forall id :: id in s.status ==> s.status[id] == Fresh
    ensures s.reported == (if order == [] && testMode then Some(map[]) else None)
    ensures order == [] <==> GapItems(cards, sentences, choice) == []
  {
    assert |order| == |multiset(order)|;
    Session(cards, order, order, 0, InitStatus(cards), 0, 0, None, false,
            if order == [] && testMode then Some(map[]) else None)
  }

  function StatusOf(s: Session, id: int): CardStatus {
    if id in s.status then s.status[id] else Fresh
  }

  /** `flashcards.find(fc => fc.id === id)` */
  function FindCard(cards: seq<Flashcard>, id: int): (r: Option<Flashcard>)
    ensures r.Some? <==> HasCard(cards, id)
    ensures r.Some? ==> r.value in cards && r.value.id == id
  {
    if cards == [] then None
    else if cards[0].id == id then Some(cards[0])
    else
      var r := FindCard(cards[1..], id);
      assert forall c :: c in cards[1..] ==> c in cards;
      assert HasCard(cards, id) ==> HasCard(cards[1..], id) by {
        if HasCard(cards, id) {
          var c :| c in cards && c.id == id;
          var i :| 0 <= i < |cards| && cards[i] == c;
          assert i > 0 && cards[1..][i - 1] == c;
        }
      }
      r
  }

  function MasteryAfter(c: Flashcard): real {
    if c.mastery + 10.0 < 100.0 then c.mastery + 10.0 else 100.0
  }

  /** The mastery posted after a correct answer: ten points more, capped at
      100, and nothing when no loaded card carries the item's id. */
  function Posted(cards: seq<Flashcard>, id: int): (r: Option<real>)
    ensures r.Some? <==> HasCard(cards, id)
    ensures r.Some? ==> exists c :: c in cards && c.id == id && r.value == MasteryAfter(c)
    ensures r.Some? ==> r.value <= 100.0
  {
    var fc := FindCard(cards, id);
    if fc.Some? then Some(MasteryAfter(fc.value)) else None
  }

  /** `handleCheckAnswer`, with the blank's word as the expected answer; the
      mastery post happens only for a card found in the loaded list. */
  function Check(s: Session, answer: string): (r: (Session, Option<real>))
    ensures Trim(answer) == [] || s.index >= |s.items| ==> r == (s, None)
    ensures Trim(answer) != [] && s.index < |s.items| ==>
      var it := s.items[s.index];
      var t := r.0;
      var ok := Normalize(answer) == Normalize(it.correctWord);
      && t.result == Some(PositionalDiff.Compare(answer, it.correctWord))
      && t.items == s.items && t.index == s.index && t.loaded == s.loaded && t.cards == s.cards
      && t.completed == s.completed && t.status.Keys == s.status.Keys + {it.flashcardId}
      && (forall id :: id in s.status && id != it.flashcardId ==> t.status[id] == s.status[id])
      && (ok ==> t.status[it.flashcardId] == CardStatus(true, StatusOf(s, it.flashcardId).attempts)
                 && t.correctCount == s.correctCount + 1 && t.incorrectCount == s.incorrectCount
                 && r.1 == Posted(s.cards, it.flashcardId))
      && (!ok ==> t.status[it.flashcardId] == CardStatus(StatusOf(s, it.flashcardId).known, StatusOf(s, it.flashcardId).attempts + 1)
                  && t.incorrectCount == s.incorrectCount + 1 && t.correctCount == s.correctCount
                  && r.1 == None)
  {
    if Trim(answer) == [] || s.index >= |s.items| then (s, None)
    else
      var it := s.items[s.index];
      var cmp := PositionalDiff.Compare(answer, it.correctWord);
      (Record(s, it.flashcardId, cmp), if cmp.isCorrect then Posted(s.cards, it.flashcardId) else None)
  }

  /** The verdict shown and counted, and the card's status updated by it. */
  function Record(s: Session, id: int, cmp: Comparison): (t: Session)
    ensures t.result == Some(cmp)
    ensures t.items == s.items && t.index == s.index && t.loaded == s.loaded && t.cards == s.cards
    ensures t.completed == s.completed && t.reported == s.reported
    ensures t.status.Keys == s.status.Keys + {id}
    ensures forall k :: k in s.status && k != id ==> t.status[k] == s.status[k]
    ensures cmp.isCorrect ==> t.status[id] == CardStatus(true, StatusOf(s, id).attempts)
                              && t.correctCount == s.correctCount + 1 && t.incorrectCount == s.incorrectCount
    ensures !cmp.isCorrect ==> t.status[id] == CardStatus(StatusOf(s, id).known, StatusOf(s, id).attempts + 1)
                               && t.incorrectCount == s.incorrectCount + 1 && t.correctCount == s.correctCount
  {
    var st := StatusOf(s, id);
    if cmp.isCorrect then
      s.(result := Some(cmp), correctCount := s.correctCount + 1, status := s.status[id := CardStatus(true, st.attempts)])
    else
      s.(result := Some(cmp), incorrectCount := s.incorrectCount + 1, status := s.status[id := CardStatus(st.known, st.attempts + 1)])
  }

  predicate Passed(s: Session, testMode: bool) {
    (s.result.Some? && s.result.value.isCorrect) || testMode
  }

  /** `handleContinue`: the deck rules of writing practice applied to the
      gap items. */
  function Continue(s: Session, testMode: bool, offset: nat): (t: Session)
    requires 3 <= offset <= 5
    ensures s.index >= |s.items| ==> t == s
    ensures t.status == s.status && t.correctCount == s.correctCount && t.incorrectCount == s.incorrectCount
    ensures t.loaded == s.loaded && t.cards == s.cards
    ensures s.index < |s.items| && Passed(s, testMode) ==>
      && (t.completed <==> s.completed || |s.items| == 1)
      && (|s.items| == 1 ==> t.items == s.items && t.reported == Some(s.status))
      && (|s.items| > 1 ==> multiset(t.items) + multiset{s.items[s.index]} == multiset(s.items)
                            && t.index < |t.items| && t.result == None)
    ensures s.index < |s.items| && !Passed(s, testMode) ==>
      && multiset(t.items) == multiset(s.items) + multiset{s.items[s.index]}
      && t.index < |t.items| && t.result == None && t.completed == s.completed
      && (exists p :: t.index <= p < |t.items| && t.items[p] == s.items[s.index])
  {
    if s.index >= |s.items| then s
    else if Passed(s, testMode) then
      match Retire(s.items, s.index)
      case Finished => s.(completed := true, reported := Some(s.status))
      case Next(d, i) => s.(items := d, index := i, result := None)
    else
      RequeueShowsAgain(s.items, s.index, offset);
      var (d, i) := Requeue(s.items, s.index, offset);
      s.(items := d, index := i, result := None)
  }

  /** The bookkeeping of `handleSkip`: one more attempt on the item's card
      and one more miss. */
  function Miss(s: Session): (t: Session)
    requires s.index < |s.items|
    ensures var id := s.items[s.index].flashcardId;
      && t.status == s.status[id := CardStatus(StatusOf(s, id).known, StatusOf(s, id).attempts + 1)]
      && t.incorrectCount == s.incorrectCount + 1 && t.correctCount == s.correctCount
      && t.items == s.items && t.index == s.index && t.result == s.result && t.completed == s.completed
  {
    var id := s.items[s.index].flashcardId;
    var st := StatusOf(s, id);
    s.(status := s.status[id := CardStatus(st.known, st.attempts + 1)], incorrectCount := s.incorrectCount + 1)
  }

  /** `handleSkip`: a miss on the current item, then `handleContinue` with
      the verdict on screen (none, or the last wrong one), so outside test
      mode the item comes back later. */
  function Skip(s: Session, testMode: bool, offset: nat): (t: Session)
    requires s.index < |s.items| && 3 <= offset <= 5
    ensures t.status == Miss(s).status && t.incorrectCount == s.incorrectCount + 1 && t.correctCount == s.correctCount
    ensures !testMode && (s.result.None? || !s.result.value.isCorrect) ==>
      && multiset(t.items) == multiset(s.items) + multiset{s.items[s.index]}
      && (exists p :: t.index <= p < |t.items| && t.items[p] == s.items[s.index])
  {
    Continue(Miss(s), testMode, offset)
  }

  // ---- restart ----------------------------------------------------------------

  /** `handleRestart` as written: the items it reshuffles are those left in
      the deck, which after a completion is only the last one. */
  function RestartAsWritten(s: Session, order: seq<GapItem>): (t: Session)
    requires multiset(order) == multiset(s.items)
    ensures t.items == order && t.index == 0 && !t.completed && t.result == None
    ensures forall id :: id in t.status <==> HasCard(s.cards, id)
    ensures t.correctCount == 0 && t.incorrectCount == 0
  {
    s.(items := order, index := 0, status := InitStatus(s.cards), correctCount := 0, incorrectCount := 0,
       result := None, completed := false)
  }

  lemma {:induction false} RestartAfterCompletionShrinks(s: Session, offset: nat, order: seq<GapItem>)
    requires !s.completed && s.index < |s.items| && 3 <= offset <= 5
    requires Continue(s, false, offset).completed
    requires multiset(order) == multiset(Continue(s, false, offset).items)
    ensures |RestartAsWritten(Continue(s, false, offset), order).items| == 1
  {
    assert |order| == |multiset(order)|;
  }

  /** `handleRestart` as intended: all prepared items again, all statuses
      fresh, in the new shuffle `order`. */
  function Restart(s: Session, order: seq<GapItem>): (t: Session)
    requires multiset(order) == multiset(s.loaded)
    ensures t.items == order && |t.items| == |s.loaded| && t.index == 0 && !t.completed && t.result == None
    ensures forall id :: id in t.status <==> HasCard(s.cards, id)
    ensures forall id :: id in t.status ==> t.status[id] == Fresh
    ensures t.correctCount == 0 && t.incorrectCount == 0 && t.reported == None
  {
    assert |order| == |multiset(order)|;
    s.(items := order, index := 0, status := InitStatus(s.cards), correctCount := 0, incorrectCount := 0,
       result := None, completed := false, reported := None)
  }

  // ---- the completion screen ------------------------------------------------

  /** `accuracy` is `None` where the source divides 0 by 0. */
  datatype Stats = Stats(totalSentences: nat, firstTryCorrect: nat, totalAttempts: nat, accuracy: Option<real>)

  function IdsWhere(status: map<int, CardStatus>, attempts: nat): set<int> {
    set id | id in status && status[id].known && status[id].attempts == attempts
  }

  function Accuracy(s: Session, sentences: nat): Option<real> {
    if sentences == 0 then Some(0.0)
    else if s.correctCount + s.incorrectCount == 0 then None
    else Some(Percent(s.correctCount, s.correctCount + s.incorrectCount))
  }

  /** The statistics as written: the sentence total is the length of the
      deck on screen, and a first-try word is a known one with exactly one
      recorded miss. */
  function StatsAsWritten(s: Session): (st: Stats)
    ensures st.totalSentences == |s.items|
    ensures st.firstTryCorrect == |IdsWhere(s.status, 1)|
    ensures st.totalAttempts == SumAttempts(s.status, Ids(s.cards))
  {
    Stats(|s.items|, |IdsWhere(s.status, 1)|, SumAttempts(s.status, Ids(s.cards)), Accuracy(s, |s.items|))
  }

  /** The completion screen as written always reports one sentence. */
  lemma CompletedShowsOneSentence(s: Session, offset: nat)
    requires !s.completed && s.index < |s.items| && 3 <= offset <= 5
    requires Continue(s, false, offset).completed
    ensures StatsAsWritten(Continue(s, false, offset)).totalSentences == 1
  {
  }

  /** A word answered right at the first attempt keeps `attempts == 0`, so
      the as-written first-try count leaves out every flawless word. */
  lemma {:induction false} FlawlessWordsNotCounted(s: Session)
    requires forall id :: id in s.status ==> s.status[id] == CardStatus(true, 0)
    ensures StatsAsWritten(s).firstTryCorrect == 0
    ensures GetStats(s).firstTryCorrect == |s.status.Keys|
  {
    assert IdsWhere(s.status, 1) == {} by {
      forall id | id in s.status ensures s.status[id].attempts != 1 {}
    }
    assert IdsWhere(s.status, 0) == s.status.Keys by {
      forall id | id in s.status ensures id in IdsWhere(s.status, 0) {
        assert s.status[id] == CardStatus(true, 0);
      }
    }
  }

  /** The statistics as intended: the sentences the session was prepared
      with, and the words known without a miss. */
  function GetStats(s: Session): (st: Stats)
    ensures st.totalSentences == |s.loaded|
    ensures st.firstTryCorrect == |IdsWhere(s.status, 0)| && st.firstTryCorrect <= |s.status.Keys|
    ensures st.totalAttempts == SumAttempts(s.status, Ids(s.cards))
    ensures st.accuracy.Some? ==> 0.0 <= st.accuracy.value <= 100.0
    ensures |s.loaded| > 0 && s.correctCount + s.incorrectCount > 0 ==>
      st.accuracy.Some? && st.accuracy.value * ((s.correctCount + s.incorrectCount) as real) == (s.correctCount as real) * 100.0
  {
    SubsetCard(IdsWhere(s.status, 0), s.status.Keys);
    Stats(|s.loaded|, |IdsWhere(s.status, 0)|, SumAttempts(s.status, Ids(s.cards)), Accuracy(s, |s.loaded|))
  }

  // ---- invariants -----------------------------------------------------------

  predicate HasItem(items: seq<GapItem>, id: int) {
    exists it :: it in items && it.flashcardId == id
  }

  /** Every item on the deck is a prepared one whose card has a status. */
  predicate Valid(s: Session) {
    && (s.items != [] ==> s.index < |s.items|)
    && (forall it :: it in s.items ==> it in s.loaded && it.flashcardId in s.status)
    && (forall it :: it in s.loaded ==> it.flashcardId in Ids(s.cards))
  }

  /** Outside test mode an item leaves the deck only after its word was
      typed correctly. */
  predicate Earned(s: Session) {
    && (forall id :: id in s.status && HasItem(s.loaded, id) && !HasItem(s.items, id) ==> s.status[id].known)
    && (s.result.Some? && s.result.value.isCorrect && s.index < |s.items| ==> StatusOf(s, s.items[s.index].flashcardId).known)
  }

  /** The misses recorded per card add up to the incorrect counter, which
      is therefore the total the completion screen shows. */
  predicate Tally(s: Session) {
    SumAttempts(s.status, Ids(s.cards)) == s.incorrectCount
  }

  lemma {:induction false} StartInvariants(cards: seq<Flashcard>, sentences: map<int, seq<Sentence>>, choice: seq<nat>,
                        order: seq<GapItem>, testMode: bool)
    requires PicksFit(cards, sentences, choice)
    requires multiset(order) == multiset(GapItems(cards, sentences, choice))
    ensures var s := Start(cards, sentences, choice, order, testMode);
      Valid(s) && Earned(s) && Tally(s)
  {
    var s := Start(cards, sentences, choice, order, testMode);
    forall it | it in order
      ensures it.flashcardId in s.status && it.flashcardId in Ids(cards)
    {
      assert it in multiset(order);
      ItemFacts(cards, sentences, choice, it);
      var c :| c in cards && c.id == it.flashcardId;
      InIds(cards, c);
    }
    SumAttemptsFresh(s.status, Ids(cards));
  }

  lemma {:induction false} CheckKeeps(s: Session, answer: string)
    requires Valid(s) && Earned(s) && Tally(s)
    ensures var t := Check(s, answer).0; Valid(t) && Earned(t) && Tally(t)
  {
    var t := Check(s, answer).0;
    if Trim(answer) != [] && s.index < |s.items| {
      var it := s.items[s.index];
      assert t.status.Keys == s.status.Keys;
      SumAttemptsUpdate(s.status, Ids(s.cards), it.flashcardId, t.status[it.flashcardId]);
    }
  }

  lemma {:induction false} ContinueKeeps(s: Session, offset: nat)
    requires Valid(s) && Earned(s) && Tally(s) && 3 <= offset <= 5
    ensures var t := Continue(s, false, offset); Valid(t) && Earned(t) && Tally(t)
  {
    if s.index < |s.items| {
      if Passed(s, false) {
        RetireKeeps(s, offset);
      } else {
        RequeueKeeps(s, offset);
      }
    }
  }

  lemma {:induction false} RetireKeeps(s: Session, offset: nat)
    requires Valid(s) && Earned(s) && Tally(s) && 3 <= offset <= 5
    requires s.index < |s.items| && Passed(s, false)
    ensures var t := Continue(s, false, offset); Valid(t) && Earned(t) && Tally(t)
  {
    if |s.items| == 1 {
      assert Continue(s, false, offset) == s.(completed := true, reported := Some(s.status));
    } else {
      RetireRestKeeps(s, offset);
    }
  }

  lemma {:induction false} RetireRestKeeps(s: Session, offset: nat)
    requires Valid(s) && Earned(s) && Tally(s) && 3 <= offset <= 5
    requires s.index < |s.items| && Passed(s, false) && |s.items| > 1
    ensures var t := Continue(s, false, offset); Valid(t) && Earned(t) && Tally(t)
  {
    var t := Continue(s, false, offset);
    var it := s.items[s.index];
    var step := Retire(s.items, s.index);
    assert t == s.(items := step.deck, index := step.index, result := None);
    RetireMembers(s.items, s.index);
    assert Valid(t);
    forall id | id in t.status && HasItem(t.loaded, id) && !HasItem(t.items, id)
      ensures t.status[id].known
    {
      if HasItem(s.items, id) {
        var x :| x in s.items && x.flashcardId == id;
        assert x == it;
      }
    }
  }

  lemma {:induction false} RequeueKeeps(s: Session, offset: nat)
    requires Valid(s) && Earned(s) && Tally(s) && 3 <= offset <= 5
    requires s.index < |s.items| && !Passed(s, false)
    ensures var t := Continue(s, false, offset); Valid(t) && Earned(t) && Tally(t)
  {
    var t := Continue(s, false, offset);
    RequeueMembers(s.items, s.index, offset);
    assert forall x :: x in t.items <==> x in s.items;
  }

  lemma {:induction false} SkipKeeps(s: Session, offset: nat)
    requires Valid(s) && Earned(s) && Tally(s) && s.index < |s.items| && 3 <= offset <= 5
    ensures var t := Skip(s, false, offset); Valid(t) && Earned(t) && Tally(t)
  {
    var id := s.items[s.index].flashcardId;
    var missed := Miss(s);
    SumAttemptsUpdate(s.status, Ids(s.cards), id, missed.status[id]);
    assert missed.status.Keys == s.status.Keys;
    assert Valid(missed) && Tally(missed);
    assert Earned(missed) by {
      if missed.result.Some? && missed.result.value.isCorrect {
        assert StatusOf(s, id).known;
      }
    }
    ContinueKeeps(missed, offset);
  }

  /** Outside test mode the session ends only when every word that had a
      gap has been typed correctly. */
  lemma {:induction false} CompletionMeansAllKnown(s: Session, offset: nat)
    requires Valid(s) && Earned(s) && !s.completed && 3 <= offset <= 5
    requires Continue(s, false, offset).completed
    ensures forall id :: id in s.status && HasItem(s.loaded, id) ==> s.status[id].known
  {
    assert |s.items| == 1 && s.index == 0;
    forall id | id in s.status && HasItem(s.loaded, id)
      ensures s.status[id].known
    {
      if HasItem(s.items, id) {
        var x :| x in s.items && x.flashcardId == id;
        assert x == s.items[0];
      }
    }
  }
}
