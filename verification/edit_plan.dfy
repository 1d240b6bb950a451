/** The plan editor: flashcards are edited, added and deleted locally, and
    saving turns the local list into update, create and delete requests. */
module EditPlan {
  import opened Common

  /** A server id, or the `temp-<timestamp>` id of a card added locally. */
  datatype CardId = Saved(id: int) | Temp(stamp: int)

  datatype EditCard = EditCard(id: CardId, front: string, back: string,
                               isNew: bool, isDeleted: bool, isModified: bool)

  datatype Editor = Editor(cards: seq<EditCard>, unsaved: bool)

  datatype Field = FrontText | BackText

  /** The requests `handleSaveAll` sends. */
  datatype Op = Put(id: CardId, front: string, back: string) | Post(front: string, back: string) | Delete(id: CardId)

  /** `fetchPlanData`: the plan's cards, none new, none deleted. */
  function Load(fetched: seq<Flashcard>): (e: Editor)
    ensures |e.cards| == |fetched| && !e.unsaved
    ensures forall i :: 0 <= i < |fetched| ==>
      e.cards[i] == EditCard(Saved(fetched[i].id), fetched[i].front, fetched[i].back, false, false, false)
    ensures Valid(e)
  {
    Editor(seq(|fetched|, i requires 0 <= i < |fetched| =>
      EditCard(Saved(fetched[i].id), fetched[i].front, fetched[i].back, false, false, false)), false)
  }

  /** `handleCardChange`: the field takes the value, and the card counts as
      modified unless it is new. */
  function Change(e: Editor, index: nat, field: Field, value: string): (r: Editor)
    requires index < |e.cards|
    ensures r.unsaved && |r.cards| == |e.cards|
    ensures forall i :: 0 <= i < |e.cards| && i != index ==> r.cards[i] == e.cards[i]
    ensures var c, d := e.cards[index], r.cards[index];
      && d.id == c.id && d.isNew == c.isNew && d.isDeleted == c.isDeleted
      && d.isModified == !c.isNew
      && (field == FrontText ==> d.front == value && d.back == c.back)
      && (field == BackText ==> d.back == value && d.front == c.front)
  {
    var c := e.cards[index];
    var d := match field
      case FrontText => c.(front := value)
      case BackText => c.(back := value);
    Editor(e.cards[index := d.(isModified := !c.isNew)], true)
  }

  /** `handleAddCard`: one blank new card at the end, nothing else touched. */
  function Add(e: Editor, now: int): (r: Editor)
    ensures r.unsaved
    ensures r.cards == e.cards + [EditCard(Temp(now), "", "", true, false, false)]
  {
    Editor(e.cards + [EditCard(Temp(now), "", "", true, false, false)], true)
  }

  /** `handleDeleteCard`: a new card is dropped from the list at once; an
      existing one stays, marked for deletion. */
  function Remove(e: Editor, index: nat): (r: Editor)
    requires index < |e.cards|
    ensures r.unsaved
    ensures e.cards[index].isNew ==> r.cards == RemoveAt(e.cards, index)
    ensures !e.cards[index].isNew ==>
      r.cards == e.cards[index := e.cards[index].(isDeleted := true)]
  {
    var c := e.cards[index];
    if c.isNew then Editor(RemoveAt(e.cards, index), true)
    else Editor(e.cards[index := c.(isDeleted := true)], true)
  }

  predicate IsVisible(c: EditCard) { !c.isDeleted }

  /** `visibleCards`: the cards not marked for deletion, in list order. */
  function Visible(e: Editor): (v: seq<EditCard>)
    ensures forall c :: c in v <==> c in e.cards && !c.isDeleted
  {
    FilterMembers(e.cards, IsVisible);
    Filter(e.cards, IsVisible)
  }

  /** The three tests of `handleSaveAll`; front and back must be non-empty
      for a new card to be created. */
  predicate PutsIt(c: EditCard) { c.isModified && !c.isNew && !c.isDeleted }
  predicate PostsIt(c: EditCard) { c.isNew && !c.isDeleted && c.front != "" && c.back != "" }
  predicate DeletesIt(c: EditCard) { c.isDeleted && !c.isNew }
  predicate HasOp(c: EditCard) { PutsIt(c) || PostsIt(c) || DeletesIt(c) }

  /** The operation one card contributes, if any. */
  function OpFor(c: EditCard): (r: Option<Op>)
    ensures r.Some? <==> HasOp(c)
    ensures r.Some? && r.value.Put? <==> PutsIt(c)
    ensures r.Some? && r.value.Post? <==> PostsIt(c)
    ensures r.Some? && r.value.Delete? <==> DeletesIt(c)
  {
    if PutsIt(c) then Some(Put(c.id, c.front, c.back))
    else if PostsIt(c) then Some(Post(c.front, c.back))
    else if DeletesIt(c) then Some(Delete(c.id))
    else None
  }

  /** No card passes two of the tests. */
  lemma AtMostOneOp(c: EditCard)
    ensures !(PutsIt(c) && PostsIt(c)) && !(PutsIt(c) && DeletesIt(c)) && !(PostsIt(c) && DeletesIt(c))
  {
  }

  function Puts(cs: seq<EditCard>): (ops: seq<Op>)
    ensures |ops| == Count(cs, PutsIt)
    ensures forall o :: o in ops ==> o.Put?
    ensures forall k :: 0 <= k < |ops| ==> OpFor(Filter(cs, PutsIt)[k]) == Some(ops[k])
  {
    if cs == [] then []
    else
      var c := cs[|cs| - 1];
      Puts(cs[..|cs| - 1]) + (if PutsIt(c) then [Put(c.id, c.front, c.back)] else [])
  }

  function Posts(cs: seq<EditCard>): (ops: seq<Op>)
    ensures |ops| == Count(cs, PostsIt)
    ensures forall o :: o in ops ==> o.Post?
    ensures forall k :: 0 <= k < |ops| ==> OpFor(Filter(cs, PostsIt)[k]) == Some(ops[k])
  {
    if cs == [] then []
    else
      var c := cs[|cs| - 1];
      Posts(cs[..|cs| - 1]) + (if PostsIt(c) then [Post(c.front, c.back)] else [])
  }

  function Deletes(cs: seq<EditCard>): (ops: seq<Op>)
    ensures |ops| == Count(cs, DeletesIt)
    ensures forall o :: o in ops ==> o.Delete?
    ensures forall k :: 0 <= k < |ops| ==> OpFor(Filter(cs, DeletesIt)[k]) == Some(ops[k])
  {
    if cs == [] then []
    else
      var c := cs[|cs| - 1];
      Deletes(cs[..|cs| - 1]) + (if DeletesIt(c) then [Delete(c.id)] else [])
  }

  /** Where a request stands in the save: updates first, then creations,
      then deletions. */
  function OpRank(o: Op): nat {
    match o
    case Put(_, _, _) => 0
    case Post(_, _) => 1
    case Delete(_) => 2
  }

  /** `handleSaveAll`: updates, then creations, then deletions, each in list
      order. Every request is the operation of one of the cards. */
  function Operations(e: Editor): (ops: seq<Op>)
    ensures |ops| == Count(e.cards, HasOp)
    ensures forall o :: o in ops ==> exists c :: c in e.cards && OpFor(c) == Some(o)
    ensures forall i, j :: 0 <= i < j < |ops| ==> OpRank(ops[i]) <= OpRank(ops[j])
  {
    OpCounts(e.cards);
    FromCards(e.cards, PutsIt, Puts(e.cards));
    FromCards(e.cards, PostsIt, Posts(e.cards));
    FromCards(e.cards, DeletesIt, Deletes(e.cards));
    InRankOrder(Puts(e.cards), Posts(e.cards), Deletes(e.cards));
    Puts(e.cards) + Posts(e.cards) + Deletes(e.cards)
  }

  /** Requests made from the filtered cards are requests of the cards. */
  lemma {:induction false} FromCards(cs: seq<EditCard>, p: EditCard -> bool, ops: seq<Op>)
    requires |ops| <= |Filter(cs, p)|
    requires forall k :: 0 <= k < |ops| ==> OpFor(Filter(cs, p)[k]) == Some(ops[k])
    ensures forall o :: o in ops ==> exists c :: c in cs && OpFor(c) == Some(o)
  {
    FilterMembers(cs, p);
    forall o | o in ops
      ensures exists c :: c in cs && OpFor(c) == Some(o)
    {
      var k :| 0 <= k < |ops| && ops[k] == o;
      assert Filter(cs, p)[k] in Filter(cs, p);
    }
  }

  /** Updates, then creations, then deletions are in rank order. */
  lemma {:induction false} InRankOrder(a: seq<Op>, b: seq<Op>, d: seq<Op>)
    requires forall o :: o in a ==> o.Put?
    requires forall o :: o in b ==> o.Post?
    requires forall o :: o in d ==> o.Delete?
    ensures var ops := a + b + d;
      forall i, j :: 0 <= i < j < |ops| ==> OpRank(ops[i]) <= OpRank(ops[j])
  {
    var ops := a + b + d;
    forall k | 0 <= k < |ops|
      ensures OpRank(ops[k]) == if k < |a| then 0 else if k < |a| + |b| then 1 else 2
    {
      if k < |a| {
        assert ops[k] == a[k] && a[k] in a;
      } else if k < |a| + |b| {
        assert ops[k] == b[k - |a|] && b[k - |a|] in b;
      } else {
        assert ops[k] == d[k - |a| - |b|] && d[k - |a| - |b|] in d;
      }
    }
  }

  /** One request per card with an operation: the three counts add up to the
      number of such cards because the tests exclude one another. */
  lemma {:induction false} OpCounts(cs: seq<EditCard>)
    ensures Count(cs, PutsIt) + Count(cs, PostsIt) + Count(cs, DeletesIt) == Count(cs, HasOp)
  {
    if cs != [] {
      OpCounts(cs[..|cs| - 1]);
      AtMostOneOp(cs[|cs| - 1]);
    }
  }

  /** The editor's invariant: exactly the new cards carry a temporary id,
      and a new card is never marked deleted or modified. */
  ghost predicate Valid(e: Editor)
  {
    forall c :: c in e.cards ==> (c.isNew <==> c.id.Temp?) && (c.isNew ==> !c.isDeleted && !c.isModified)
  }

  lemma {:induction false} ChangeKeeps(e: Editor, index: nat, field: Field, value: string)
    requires Valid(e) && index < |e.cards|
    ensures Valid(Change(e, index, field, value))
  {
    var r := Change(e, index, field, value);
    forall c | c in r.cards
      ensures (c.isNew <==> c.id.Temp?) && (c.isNew ==> !c.isDeleted && !c.isModified)
    {
      var i :| 0 <= i < |r.cards| && r.cards[i] == c;
      assert i != index ==> c == e.cards[i];
      assert e.cards[index] in e.cards;
    }
  }

  lemma AddKeeps(e: Editor, now: int)
    requires Valid(e)
    ensures Valid(Add(e, now))
  {
  }

  lemma {:induction false} RemoveKeeps(e: Editor, index: nat)
    requires Valid(e) && index < |e.cards|
    ensures Valid(Remove(e, index))
  {
    var r := Remove(e, index);
    forall c | c in r.cards
      ensures (c.isNew <==> c.id.Temp?) && (c.isNew ==> !c.isDeleted && !c.isModified)
    {
      var i :| 0 <= i < |r.cards| && r.cards[i] == c;
      if e.cards[index].isNew {
        assert c == e.cards[if i < index then i else i + 1];
      } else {
        assert e.cards[index] in e.cards;
        assert i != index ==> c == e.cards[i];
      }
    }
  }

  /** Under the invariant the save requests read off plainly: an edited
      card is updated, a deleted one deleted, and a new one created once it
      has both texts; a temporary id is never sent to the server. */
  lemma OpsUnderValid(e: Editor, c: EditCard)
    requires Valid(e) && c in e.cards
    ensures PutsIt(c) <==> c.isModified && !c.isDeleted
    ensures DeletesIt(c) <==> c.isDeleted
    ensures PostsIt(c) <==> c.isNew && c.front != "" && c.back != ""
    ensures PutsIt(c) || DeletesIt(c) ==> c.id.Saved?
  {
  }

  /** Deleting an existing card queues exactly its deletion; deleting a new
      card leaves nothing to send for it. */
  lemma {:induction false} RemoveThenSave(e: Editor, index: nat)
    requires Valid(e) && index < |e.cards|
    ensures var r := Remove(e, index);
      !e.cards[index].isNew ==> OpFor(r.cards[index]) == Some(Delete(e.cards[index].id))
    ensures e.cards[index].isNew ==> |Remove(e, index).cards| == |e.cards| - 1
  {
    assert e.cards[index] in e.cards;
  }

  /** A card just added is not sent until both of its texts are filled in. */
  lemma {:induction false} AddedCardWaits(e: Editor, now: int)
    ensures var r := Add(e, now);
      OpFor(r.cards[|r.cards| - 1]) == None && Visible(r) == Visible(e) + [r.cards[|r.cards| - 1]]
  {
    var r := Add(e, now);
    assert r.cards[..|r.cards| - 1] == e.cards;
  }

  /** Marking a visible existing card deleted hides it and only it. */
  lemma {:induction false} RemoveHides(e: Editor, index: nat)
    requires index < |e.cards| && !e.cards[index].isNew && !e.cards[index].isDeleted
    ensures |Visible(Remove(e, index))| == |Visible(e)| - 1
  {
    CountUpdate(e.cards, index, e.cards[index].(isDeleted := true));
  }

  lemma {:induction false} CountUpdate(cs: seq<EditCard>, index: nat, d: EditCard)
    requires index < |cs|
    ensures Count(cs[index := d], IsVisible) + (if IsVisible(cs[index]) then 1 else 0)
         == Count(cs, IsVisible) + (if IsVisible(d) then 1 else 0)
    decreases |cs|
  {
    var n := |cs|;
    if index < n - 1 {
      assert cs[index := d][..n - 1] == cs[..n - 1][index := d];
      CountUpdate(cs[..n - 1], index, d);
    } else {
      assert cs[index := d][..n - 1] == cs[..n - 1];
    }
  }
}
