/** The deck discipline shared by writing practice, fill-the-gaps and the
    learn mode: the item at `currentIndex` is the one shown; a mastered item
    is taken out of the deck, a missed one is shown again a few places later. */
module DrillDeck {
  import opened Common

  /** After a retirement: either the deck that remains and the index to show
      next, or the end of the session (the deck held only this item). */
  datatype Step<T> = Next(deck: seq<T>, index: nat) | Finished

  /** `flashcards.filter((_, i) => i !== currentIndex)`, then `currentIndex`
      pulled back onto the last item when it fell off the end. */
  function Retire<T>(deck: seq<T>, index: nat): (r: Step<T>)
    requires index < |deck|
    ensures r.Finished? <==> |deck| == 1
    ensures r.Next? ==>
      && r.deck == RemoveAt(deck, index)
      && r.index < |r.deck|
      && (index < |r.deck| ==> r.index == index)
      && (index == |r.deck| ==> r.index == index - 1)
      && multiset(r.deck) + multiset{deck[index]} == multiset(deck)
  {
    var rest := RemoveAt(deck, index);
    if |rest| == 0 then Finished
    else Next(rest, if index >= |rest| then |rest| - 1 else index)
  }

  /** A copy of the current item spliced in `offset` places ahead (the
      source draws `offset = 3 + floor(random * 3)`), and the index moved to
      the following item, or back to 0 from the last one of the old deck. */
  function Requeue<T>(deck: seq<T>, index: nat, offset: nat): (r: (seq<T>, nat))
    requires index < |deck|
    requires 3 <= offset <= 5
    ensures |r.0| == |deck| + 1
    ensures multiset(r.0) == multiset(deck) + multiset{deck[index]}
    ensures r.0[..index + 1] == deck[..index + 1]
    ensures r.1 == (if index < |deck| - 1 then index + 1 else 0)
    ensures r.1 < |r.0|
  {
    (SpliceInsert(deck, index + offset, deck[index]), if index < |deck| - 1 then index + 1 else 0)
  }

  /** A missed item is not lost: its copy lies at or after the next index,
      and at least two other items come first unless the copy was clamped
      to the end of the deck. */
  lemma RequeueShowsAgain<T>(deck: seq<T>, index: nat, offset: nat)
    requires index < |deck| && 3 <= offset <= 5
    ensures var (d, i) := Requeue(deck, index, offset);
      var p := Min(index + offset, |deck|);
      && i <= p < |d| && d[p] == deck[index]
      && (index + offset <= |deck| ==> p - (index + 1) == offset - 1)
  {
  }

  /** A requeue neither loses an item nor invents one. */
  lemma {:induction false} RequeueMembers<T>(deck: seq<T>, index: nat, offset: nat)
    requires index < |deck| && 3 <= offset <= 5
    ensures forall x :: x in Requeue(deck, index, offset).0 <==> x in deck
  {
    var d := Requeue(deck, index, offset).0;
    forall x ensures x in d <==> x in deck {
      assert x in deck <==> x in multiset(deck);
      assert x in d <==> x in multiset(d);
    }
  }

  /** Retiring keeps every other item and adds none. */
  lemma {:induction false} RetireMembers<T>(deck: seq<T>, index: nat)
    requires index < |deck| && Retire(deck, index).Next?
    ensures forall x :: x in Retire(deck, index).deck ==> x in deck
    ensures forall x :: x in deck && x != deck[index] ==> x in Retire(deck, index).deck
  {
    var d := Retire(deck, index).deck;
    forall x | x in d ensures x in deck {
      assert x in multiset(d);
    }
    forall x | x in deck && x != deck[index] ensures x in d {
      assert x in multiset(deck);
    }
  }

  // ---- per-card status ------------------------------------------------------

  /** `status[card.id]`: answered correctly yet, and how many misses. */
  datatype CardStatus = CardStatus(known: bool, attempts: nat)

  const Fresh := CardStatus(false, 0)

  predicate HasCard(cards: seq<Flashcard>, id: int) {
    exists c :: c in cards && c.id == id
  }

  /** `cards.forEach(card => status[card.id] = { known: false, attempts: 0 })` */
  function InitStatus(cards: seq<Flashcard>): (m: map<int, CardStatus>)
    ensures forall id :: id in m <==> HasCard(cards, id)
    ensures forall id :: id in m ==> m[id] == Fresh
  {
    if cards == [] then map[]
    else
      var m := InitStatus(cards[..|cards| - 1]);
      assert forall id :: HasCard(cards, id) <==> HasCard(cards[..|cards| - 1], id) || cards[|cards| - 1].id == id by {
        assert cards == cards[..|cards| - 1] + [cards[|cards| - 1]];
      }
      m[cards[|cards| - 1].id := Fresh]
  }

  function Ids(cards: seq<Flashcard>): (r: seq<int>)
    ensures |r| == |cards| && forall i :: 0 <= i < |cards| ==> r[i] == cards[i].id
  {
    seq(|cards|, i requires 0 <= i < |cards| => cards[i].id)
  }

  lemma {:induction false} InIds(cards: seq<Flashcard>, c: Flashcard)
    requires c in cards
    ensures c.id in Ids(cards)
  {
    var i :| 0 <= i < |cards| && cards[i] == c;
    assert Ids(cards)[i] == c.id;
  }

  /** The misses of the entries named in `ids`, each entry counted once
      (the status object holds one entry per card id). */
  function SumAttempts(m: map<int, CardStatus>, ids: seq<int>): nat {
    if ids == [] then 0
    else if ids[0] in m then m[ids[0]].attempts + SumAttempts(m - {ids[0]}, ids[1..])
    else SumAttempts(m, ids[1..])
  }

  /** Replacing one entry changes the sum by the difference of attempts. */
  lemma {:induction false} SumAttemptsUpdate(m: map<int, CardStatus>, ids: seq<int>, k: int, v: CardStatus)
    ensures k in m && k in ids ==> SumAttempts(m[k := v], ids) + m[k].attempts == SumAttempts(m, ids) + v.attempts
    ensures k !in m && k in ids ==> SumAttempts(m[k := v], ids) == SumAttempts(m, ids) + v.attempts
    ensures k !in ids ==> SumAttempts(m[k := v], ids) == SumAttempts(m, ids)
  {
    if ids != [] {
      var h := ids[0];
      if h == k {
        assert m[k := v] - {k} == m - {k};
        if k !in m {
          assert m - {k} == m;
        }
      } else {
        if h in m {
          assert m[k := v] - {h} == (m - {h})[k := v];
          SumAttemptsUpdate(m - {h}, ids[1..], k, v);
        } else {
          SumAttemptsUpdate(m, ids[1..], k, v);
        }
      }
    }
  }

  lemma {:induction false} SumAttemptsFresh(m: map<int, CardStatus>, ids: seq<int>)
    requires forall id :: id in m ==> m[id] == Fresh
    ensures SumAttempts(m, ids) == 0
  {
    if ids != [] {
      var h := ids[0];
      if h in m {
        assert m[h] == Fresh;
        SumAttemptsFresh(m - {h}, ids[1..]);
      } else {
        SumAttemptsFresh(m, ids[1..]);
      }
    }
  }

  /** The misses add up to zero exactly when no entry named in `ids` has a
      miss. */
  lemma {:induction false} SumAttemptsZero(m: map<int, CardStatus>, ids: seq<int>)
    ensures SumAttempts(m, ids) == 0 <==> forall id :: id in ids && id in m ==> m[id].attempts == 0
  {
    if ids != [] {
      var h := ids[0];
      if h in m {
        SumAttemptsZero(m - {h}, ids[1..]);
        assert forall id :: id in ids <==> id == h || id in ids[1..];
      } else {
        SumAttemptsZero(m, ids[1..]);
        assert forall id :: id in ids && id in m ==> id in ids[1..];
      }
    }
  }
}
