/** The matching game: rounds of up to five cards, each shown as a front
    item on the left and a back item on the right; the learner pairs them.
    A card counts as mastered once it is paired at the first try within a
    round. */
module MatchingGame {
  import opened Common

  /** `progressMap[id]` */
  datatype Progress = Progress(firstTry: bool, wrong: bool, retry: bool)

  const Untried := Progress(false, false, false)

  datatype Tint = NoTint | Green | Yellow

  /** One tile; its id is `left-<cardId>` or `right-<cardId>`. */
  datatype Item = Item(left: bool, cardId: int, text: string, matched: bool, selected: bool, tint: Tint)

  datatype Outcome = Outcome(cardId: int, correct: bool)

  datatype Game = Game(
    cards: seq<Flashcard>,
    testMode: bool,
    round: nat,
    roundCards: seq<Flashcard>,
    items: seq<Item>,
    progress: map<int, Progress>,
    selLeft: Option<Item>,
    selRight: Option<Item>,
    matchedCount: nat,
    completed: bool,
    results: seq<Outcome>)

  function IdSet(cards: seq<Flashcard>): (r: set<int>)
    ensures forall id :: id in r <==> exists c :: c in cards && c.id == id
    ensures |r| <= |cards|
  {
    if cards == [] then {}
    else
      var init := cards[..|cards| - 1];
      assert cards == init + [cards[|cards| - 1]];
      IdSet(init) + {cards[|cards| - 1].id}
  }

  function InitProgress(cards: seq<Flashcard>): (m: map<int, Progress>)
    ensures m.Keys == IdSet(cards)
    ensures forall id :: id in m ==> m[id] == Untried
  {
    map id | id in IdSet(cards) :: Untried
  }

  function ProgOf(m: map<int, Progress>, id: int): Progress {
    if id in m then m[id] else Untried
  }

  /** The training filter from the second round on: cards still to be
      retried or never paired at the first try. */
  predicate Available(m: map<int, Progress>, c: Flashcard) {
    ProgOf(m, c.id).retry || !ProgOf(m, c.id).firstTry
  }

  function Pool(g: Game): (r: seq<Flashcard>)
    ensures forall c :: c in r ==> c in g.cards
    ensures !g.testMode && g.round > 0 ==> forall c :: c in r ==> Available(g.progress, c)
    ensures (g.testMode || g.round == 0) ==> r == g.cards
  {
    if !g.testMode && g.round > 0 then
      var p := c => Available(g.progress, c);
      FilterMembers(g.cards, p);
      Filter(g.cards, p)
    else g.cards
  }

  /** `availableCards.slice(0, min(5, length))` */
  function Selected(g: Game): (r: seq<Flashcard>)
    ensures |r| == Min(5, |Pool(g)|) && r == Pool(g)[..|r|]
    ensures forall c :: c in r ==> c in g.cards
    ensures !g.testMode && g.round > 0 ==> forall c :: c in r ==> Available(g.progress, c)
  {
    Pool(g)[..Min(5, |Pool(g)|)]
  }

  function LeftItems(cards: seq<Flashcard>): (r: seq<Item>)
    ensures |r| == |cards|
    ensures forall i :: 0 <= i < |cards| ==> r[i] == Item(true, cards[i].id, cards[i].front, false, false, NoTint)
  {
    seq(|cards|, i requires 0 <= i < |cards| => Item(true, cards[i].id, cards[i].front, false, false, NoTint))
  }

  function RightItems(cards: seq<Flashcard>): (r: seq<Item>)
    ensures |r| == |cards|
    ensures forall i :: 0 <= i < |cards| ==> r[i] == Item(false, cards[i].id, cards[i].back, false, false, NoTint)
  {
    seq(|cards|, i requires 0 <= i < |cards| => Item(false, cards[i].id, cards[i].back, false, false, NoTint))
  }

  predicate Fresh(it: Item) {
    !it.matched && !it.selected && it.tint == NoTint
  }

  /** `startRound`: nothing to select completes the game; otherwise the
      selected cards' left items (shuffled by `lo`) followed by their right
      items (shuffled by `ro`), all unpaired, with no selection. */
  function StartRound(g: Game, lo: seq<Item>, ro: seq<Item>): (t: Game)
    requires multiset(lo) == multiset(LeftItems(Selected(g)))
    requires multiset(ro) == multiset(RightItems(Selected(g)))
    ensures Selected(g) == [] ==> t == g.(completed := true)
    ensures Selected(g) != [] ==>
      && t.roundCards == Selected(g) && t.items == lo + ro
      && |t.items| == 2 * |t.roundCards|
      && (forall k :: 0 <= k < |t.items| ==> Fresh(t.items[k]) && (t.items[k].left <==> k < |t.roundCards|))
      && (forall c :: c in t.roundCards ==>
            Item(true, c.id, c.front, false, false, NoTint) in t.items
            && Item(false, c.id, c.back, false, false, NoTint) in t.items)
      && t.matchedCount == 0 && t.selLeft == None && t.selRight == None && t.completed == g.completed
    ensures t.cards == g.cards && t.progress == g.progress && t.round == g.round && t.results == g.results
  {
    var sel := Selected(g);
    if sel == [] then g.(completed := true)
    else
      RoundItemsFacts(sel, lo, ro);
      g.(roundCards := sel, items := lo + ro, matchedCount := 0, selLeft := None, selRight := None)
  }

  lemma {:induction false} RoundItemsFacts(sel: seq<Flashcard>, lo: seq<Item>, ro: seq<Item>)
    requires multiset(lo) == multiset(LeftItems(sel))
    requires multiset(ro) == multiset(RightItems(sel))
    ensures |lo| == |sel| && |ro| == |sel|
    ensures forall it :: it in lo ==> Fresh(it) && it.left
    ensures forall it :: it in ro ==> Fresh(it) && !it.left
    ensures forall c :: c in sel ==>
      Item(true, c.id, c.front, false, false, NoTint) in lo && Item(false, c.id, c.back, false, false, NoTint) in ro
  {
    assert |lo| == |multiset(lo)| && |ro| == |multiset(ro)|;
    forall it | it in lo ensures Fresh(it) && it.left {
      assert it in multiset(LeftItems(sel));
    }
    forall it | it in ro ensures Fresh(it) && !it.left {
      assert it in multiset(RightItems(sel));
    }
    forall c | c in sel
      ensures Item(true, c.id, c.front, false, false, NoTint) in lo && Item(false, c.id, c.back, false, false, NoTint) in ro
    {
      var i :| 0 <= i < |sel| && sel[i] == c;
      assert LeftItems(sel)[i] in multiset(lo);
      assert RightItems(sel)[i] in multiset(ro);
    }
  }

  /** `fetchData`: fewer than two cards give no game; otherwise the
      shuffled cards (by `order`) with untried progress, at round 0. */
  function Load(cards: seq<Flashcard>, testMode: bool, order: seq<Flashcard>, lo: seq<Item>, ro: seq<Item>): (r: Option<Game>)
    requires multiset(order) == multiset(cards)
    requires multiset(lo) == multiset(LeftItems(order[..Min(5, |order|)]))
    requires multiset(ro) == multiset(RightItems(order[..Min(5, |order|)]))
    ensures r.None? <==> |cards| < 2
    ensures r.Some? ==> r.value.cards == order && r.value.round == 0 && !r.value.completed
                        && r.value.roundCards == order[..Min(5, |order|)] && r.value.results == []
                        && r.value.progress.Keys == IdSet(cards)
                        && forall id :: id in r.value.progress ==> r.value.progress[id] == Untried
  {
    assert |order| == |multiset(order)| == |cards|;
    if |cards| < 2 then None
    else
      assert IdSet(order) == IdSet(cards) by {
        forall c ensures c in order <==> c in cards {
          assert c in order <==> c in multiset(order);
        }
      }
      Some(StartRound(Game(order, testMode, 0, [], [], InitProgress(cards), None, None, 0, false, []), lo, ro))
  }

  // ---- tiles ----------------------------------------------------------------

  function SetSelected(items: seq<Item>, left: bool, cardId: int, b: bool): (r: seq<Item>)
    ensures |r| == |items|
    ensures forall k :: 0 <= k < |items| ==>
      r[k] == if items[k].left == left && items[k].cardId == cardId then items[k].(selected := b) else items[k]
  {
    seq(|items|, k requires 0 <= k < |items| =>
      if items[k].left == left && items[k].cardId == cardId then items[k].(selected := b) else items[k])
  }

  /** Both tiles of the card paired, unselected, in the given tint. */
  function SetMatched(items: seq<Item>, cardId: int, tint: Tint): (r: seq<Item>)
    ensures |r| == |items|
    ensures forall k :: 0 <= k < |items| ==>
      r[k] == if items[k].cardId == cardId then items[k].(matched := true, selected := false, tint := tint) else items[k]
  {
    seq(|items|, k requires 0 <= k < |items| =>
      if items[k].cardId == cardId then items[k].(matched := true, selected := false, tint := tint) else items[k])
  }

  /** `checkMatch`: the pair is right exactly when both tiles belong to the
      same card. A card already missed this round is paired in yellow and
      kept for a retry; otherwise it is paired in green and counts as
      mastered at the first try. A wrong pair marks both cards as missed
      this round and due for a retry. */
  function CheckMatch(g: Game, l: Item, r: Item): (t: Game)
    ensures t.selLeft == None && t.selRight == None
    ensures t.cards == g.cards && t.roundCards == g.roundCards && t.round == g.round && t.completed == g.completed
    ensures l.cardId == r.cardId ==>
      var p := ProgOf(g.progress, l.cardId);
      && t.progress == g.progress[l.cardId := if p.wrong then p.(retry := true) else p.(firstTry := true, retry := false)]
      && t.items == SetMatched(g.items, l.cardId, if p.wrong then Yellow else Green)
      && t.matchedCount == g.matchedCount + 1
      && t.results == g.results + (if g.testMode then [Outcome(l.cardId, !p.wrong)] else [])
    ensures l.cardId != r.cardId ==>
      && t.progress == g.progress[l.cardId := ProgOf(g.progress, l.cardId).(wrong := true, retry := true)]
                                 [r.cardId := ProgOf(g.progress, r.cardId).(wrong := true, retry := true)]
      && t.items == SetSelected(SetSelected(g.items, l.left, l.cardId, false), r.left, r.cardId, false)
      && t.matchedCount == g.matchedCount && t.results == g.results
  {
    if l.cardId == r.cardId then
      var id := l.cardId;
      var p := ProgOf(g.progress, id);
      var p' := if p.wrong then p.(retry := true) else p.(firstTry := true, retry := false);
      g.(progress := g.progress[id := p'],
         items := SetMatched(g.items, id, if p.wrong then Yellow else Green),
         matchedCount := g.matchedCount + 1, selLeft := None, selRight := None,
         results := g.results + (if g.testMode then [Outcome(id, !p.wrong)] else []))
    else
      g.(progress := g.progress[l.cardId := ProgOf(g.progress, l.cardId).(wrong := true, retry := true)]
                               [r.cardId := ProgOf(g.progress, r.cardId).(wrong := true, retry := true)],
         items := SetSelected(SetSelected(g.items, l.left, l.cardId, false), r.left, r.cardId, false),
         selLeft := None, selRight := None)
  }

  /** `handleItemClick` on tile `k`: a paired tile is ignored; clicking the
      selected tile of a side deselects it; otherwise the tile replaces the
      side's selection and, with a tile selected on the other side, the
      pair is checked. */
  function Click(g: Game, k: nat): (t: Game)
    requires k < |g.items|
    ensures g.items[k].matched ==> t == g
    ensures t.cards == g.cards && t.roundCards == g.roundCards && t.round == g.round && t.completed == g.completed
    ensures !g.items[k].matched && g.items[k].left && !(g.selLeft.Some? && SameTile(g.selLeft.value, g.items[k])) && g.selRight.Some? ==>
      t == CheckMatch(Pick(g, k), g.items[k], g.selRight.value)
    ensures !g.items[k].matched && !g.items[k].left && !(g.selRight.Some? && SameTile(g.selRight.value, g.items[k])) && g.selLeft.Some? ==>
      t == CheckMatch(Pick(g, k), g.selLeft.value, g.items[k])
    ensures t.matchedCount <= g.matchedCount + 1
  {
    var it := g.items[k];
    if it.matched then g
    else if it.left then
      if g.selLeft.Some? && SameTile(g.selLeft.value, it) then
        g.(selLeft := None, items := SetSelected(g.items, true, it.cardId, false))
      else
        var g1 := Pick(g, k);
        if g.selRight.Some? then CheckMatch(g1, it, g.selRight.value) else g1
    else
      if g.selRight.Some? && SameTile(g.selRight.value, it) then
        g.(selRight := None, items := SetSelected(g.items, false, it.cardId, false))
      else
        var g1 := Pick(g, k);
        if g.selLeft.Some? then CheckMatch(g1, g.selLeft.value, it) else g1
  }

  predicate SameTile(a: Item, b: Item) {
    a.left == b.left && a.cardId == b.cardId
  }

  /** The clicked tile becomes its side's selection; the old one is
      deselected. */
  function Pick(g: Game, k: nat): (t: Game)
    requires k < |g.items|
    ensures g.items[k].left ==> t.selLeft == Some(g.items[k]) && t.selRight == g.selRight
    ensures !g.items[k].left ==> t.selRight == Some(g.items[k]) && t.selLeft == g.selLeft
    ensures t.progress == g.progress && t.matchedCount == g.matchedCount && t.results == g.results
    ensures t.cards == g.cards && t.roundCards == g.roundCards && t.round == g.round && t.completed == g.completed
  {
    var it := g.items[k];
    var sel := if it.left then g.selLeft else g.selRight;
    var items1 := if sel.Some? then SetSelected(g.items, it.left, sel.value.cardId, false) else g.items;
    var items2 := SetSelected(items1, it.left, it.cardId, true);
    if it.left then g.(selLeft := Some(it), items := items2) else g.(selRight := Some(it), items := items2)
  }

  // ---- rounds -----------------------------------------------------------------

  /** `matchedCount + 1 >= roundFlashcards.length` after a right pair. */
  predicate RoundDone(g: Game) {
    g.matchedCount >= |g.roundCards|
  }

  predicate AllMastered(m: map<int, Progress>) {
    forall id :: id in m ==> m[id].firstTry
  }

  /** The progress for the next round: the miss flags cleared on cards not
      yet mastered. */
  function ResetMisses(m: map<int, Progress>): (r: map<int, Progress>)
    ensures r.Keys == m.Keys
    ensures forall id :: id in m ==> r[id] == if m[id].firstTry then m[id] else m[id].(wrong := false)
  {
    map id | id in m :: if m[id].firstTry then m[id] else m[id].(wrong := false)
  }

  function NextRound(g: Game): Game {
    g.(progress := ResetMisses(g.progress), round := g.round + 1)
  }

  /** `handleRoundComplete`: the game ends when every card is
      mastered, or after the one round of the test mode; otherwise the next
      round starts with the misses cleared and holds only cards still to be
      retried or never paired at the first try. */
  function RoundComplete(g: Game, lo: seq<Item>, ro: seq<Item>): (t: Game)
    requires multiset(lo) == multiset(LeftItems(Selected(NextRound(g))))
    requires multiset(ro) == multiset(RightItems(Selected(NextRound(g))))
    ensures AllMastered(g.progress) || g.testMode ==> t == g.(completed := true)
    ensures !(AllMastered(g.progress) || g.testMode) ==>
      && t.round == g.round + 1 && t.progress == ResetMisses(g.progress)
      && (Selected(NextRound(g)) == [] ==> t.completed)
      && (Selected(NextRound(g)) != [] ==> t.completed == g.completed && t.roundCards == Selected(NextRound(g)))
      && (forall c :: c in t.roundCards && Selected(NextRound(g)) != [] ==> Available(t.progress, c))
      && t.results == g.results
  {
    if AllMastered(g.progress) || g.testMode then g.(completed := true)
    else StartRound(NextRound(g), lo, ro)
  }

  /** `handleReset`: both selections dropped and every tile unselected;
      paired tiles stay paired. */
  function Reset(g: Game): (t: Game)
    ensures t.selLeft == None && t.selRight == None
    ensures |t.items| == |g.items|
    ensures forall k :: 0 <= k < |g.items| ==> t.items[k] == g.items[k].(selected := false)
    ensures t.progress == g.progress && t.matchedCount == g.matchedCount && t.roundCards == g.roundCards
  {
    var items := seq(|g.items|, k requires 0 <= k < |g.items| => g.items[k].(selected := false));
    g.(selLeft := None, selRight := None, items := items)
  }

  /** After a reset the next click only selects: no pair is checked, so no
      progress changes and nothing more is paired. */
  lemma ClickAfterReset(g: Game, k: nat)
    requires k < |g.items|
    ensures var t := Click(Reset(g), k);
      t.progress == g.progress && t.matchedCount == g.matchedCount && t.results == g.results
  {
  }

  /** `handleRestart`: every card untried, round 0, no outcomes. */
  function Restart(g: Game, lo: seq<Item>, ro: seq<Item>): (t: Game)
    requires multiset(lo) == multiset(LeftItems(g.cards[..Min(5, |g.cards|)]))
    requires multiset(ro) == multiset(RightItems(g.cards[..Min(5, |g.cards|)]))
    ensures t.round == 0 && t.results == [] && t.cards == g.cards
    ensures t.progress.Keys == IdSet(g.cards) && forall id :: id in t.progress ==> t.progress[id] == Untried
    ensures g.cards != [] ==> !t.completed && t.roundCards == g.cards[..Min(5, |g.cards|)]
  {
    var g0 := g.(progress := InitProgress(g.cards), round := 0, matchedCount := 0, completed := false, results := []);
    assert Selected(g0) == g.cards[..Min(5, |g.cards|)];
    StartRound(g0, lo, ro)
  }

  // ---- properties -------------------------------------------------------------

  /** Mastery at the first try is never taken back by a click. */
  lemma {:induction false} ClickKeepsMastery(g: Game, k: nat)
    requires k < |g.items|
    ensures var t := Click(g, k);
      forall id :: id in g.progress && g.progress[id].firstTry ==> id in t.progress && t.progress[id].firstTry
  {
    var it := g.items[k];
    if !it.matched {
      var g1 := Pick(g, k);
      if it.left && !(g.selLeft.Some? && SameTile(g.selLeft.value, it)) && g.selRight.Some? {
        CheckMatchKeepsMastery(g1, it, g.selRight.value);
      } else if !it.left && !(g.selRight.Some? && SameTile(g.selRight.value, it)) && g.selLeft.Some? {
        CheckMatchKeepsMastery(g1, g.selLeft.value, it);
      }
    }
  }

  lemma CheckMatchKeepsMastery(g: Game, l: Item, r: Item)
    ensures var t := CheckMatch(g, l, r);
      forall id :: id in g.progress && g.progress[id].firstTry ==> id in t.progress && t.progress[id].firstTry
  {
  }

  /** Nor by a round change, which clears misses only of cards not yet
      mastered. */
  lemma RoundKeepsMastery(g: Game, lo: seq<Item>, ro: seq<Item>)
    requires multiset(lo) == multiset(LeftItems(Selected(NextRound(g))))
    requires multiset(ro) == multiset(RightItems(Selected(NextRound(g))))
    ensures var t := RoundComplete(g, lo, ro);
      && t.progress.Keys == g.progress.Keys
      && (forall id :: id in g.progress && g.progress[id].firstTry ==> t.progress[id] == g.progress[id])
      && (forall id :: id in g.progress && !g.progress[id].firstTry ==>
            t.progress[id].firstTry == g.progress[id].firstTry && t.progress[id].retry == g.progress[id].retry)
  {
  }

  /** The completion screen: green pairs are the mastered cards, yellow the
      rest of the card count, and the first-try rate their percentage. */
  datatype Stats = Stats(total: nat, green: nat, yellow: int, firstTryRate: real)

  function MasteredIds(m: map<int, Progress>): (r: set<int>)
    ensures r <= m.Keys
  {
    set id | id in m && m[id].firstTry
  }

  function GetStats(g: Game): (st: Stats)
    ensures st.total == |g.cards| && st.green == |MasteredIds(g.progress)|
    ensures st.green + st.yellow == st.total
    ensures st.firstTryRate * (st.total as real) == (st.green as real) * 100.0 || st.total == 0
  {
    var green := |MasteredIds(g.progress)|;
    Stats(|g.cards|, green, |g.cards| - green, Percent(green, |g.cards|))
  }

  /** The progress map stays keyed by the game's cards, and every tile and
      selection belongs to one of them. */
  predicate Keyed(g: Game) {
    && g.progress.Keys == IdSet(g.cards)
    && Owned(g.items, IdSet(g.cards))
    && (g.selLeft.Some? ==> g.selLeft.value.cardId in IdSet(g.cards))
    && (g.selRight.Some? ==> g.selRight.value.cardId in IdSet(g.cards))
  }

  predicate Owned(items: seq<Item>, ids: set<int>) {
    forall k :: 0 <= k < |items| ==> items[k].cardId in ids
  }

  lemma {:induction false} PickKeyed(g: Game, k: nat)
    requires Keyed(g) && k < |g.items|
    ensures Keyed(Pick(g, k))
  {
    var it := g.items[k];
    var ids := IdSet(g.cards);
    var sel := if it.left then g.selLeft else g.selRight;
    var items1 := if sel.Some? then SetSelected(g.items, it.left, sel.value.cardId, false) else g.items;
    if sel.Some? {
      SelectingKeepsOwned(g.items, it.left, sel.value.cardId, false, ids);
    }
    SelectingKeepsOwned(items1, it.left, it.cardId, true, ids);
    assert it.cardId in ids;
  }

  lemma {:induction false} SelectingKeepsOwned(items: seq<Item>, left: bool, cardId: int, b: bool, ids: set<int>)
    requires Owned(items, ids)
    ensures Owned(SetSelected(items, left, cardId, b), ids)
  {
    var r := SetSelected(items, left, cardId, b);
    forall k | 0 <= k < |r| ensures r[k].cardId in ids {
      assert r[k].cardId == items[k].cardId;
    }
  }

  lemma CheckMatchKeyed(g: Game, l: Item, r: Item)
    requires Keyed(g) && l.cardId in IdSet(g.cards) && r.cardId in IdSet(g.cards)
    ensures Keyed(CheckMatch(g, l, r))
  {
  }

  lemma {:induction false} ClickKeyed(g: Game, k: nat)
    requires Keyed(g) && k < |g.items|
    ensures Keyed(Click(g, k))
  {
    var it := g.items[k];
    assert it.cardId in IdSet(g.cards);
    if it.matched {
    } else if it.left && g.selLeft.Some? && SameTile(g.selLeft.value, it) {
      assert Click(g, k) == g.(selLeft := None, items := SetSelected(g.items, true, it.cardId, false));
    } else if !it.left && g.selRight.Some? && SameTile(g.selRight.value, it) {
      assert Click(g, k) == g.(selRight := None, items := SetSelected(g.items, false, it.cardId, false));
    } else {
      PickKeyed(g, k);
      var g1 := Pick(g, k);
      if it.left && g.selRight.Some? {
        CheckMatchKeyed(g1, it, g.selRight.value);
      } else if !it.left && g.selLeft.Some? {
        CheckMatchKeyed(g1, g.selLeft.value, it);
      } else {
        assert Click(g, k) == g1;
      }
    }
  }

  /** Under `Keyed`, no more cards are green than there are cards, so the
      yellow count is never negative and the rate is at most 100. */
  lemma {:induction false} StatsInRange(g: Game)
    requires Keyed(g)
    ensures GetStats(g).yellow >= 0 && 0.0 <= GetStats(g).firstTryRate <= 100.0
    ensures GetStats(g).yellow == 0 <==> |MasteredIds(g.progress)| == |g.cards|
  {
    SubsetCard(MasteredIds(g.progress), g.progress.Keys);
  }
}
