/** Grading of fill-the-gaps answers: the same normalization as writing
    practice, then a character-by-character comparison at equal positions
    (no subsequence alignment). */
module PositionalDiff {
  import opened Common
  import opened TextNormalize
  import opened LcsDiff

  predicate Agrees(u: string, c: string, i: nat) {
    i < |u| && i < |c| && u[i] == c[i]
  }

  /** The positions where both answers hold the same character. */
  function Agreement(u: string, c: string): set<nat> {
    set i | 0 <= i < |u| && Agrees(u, c, i)
  }

  /** The agreeing positions below `k`, as a match list on the diagonal. */
  function Diagonal(u: string, c: string, k: nat): seq<Match>
    requires k <= |u|
  {
    if k == 0 then []
    else Diagonal(u, c, k - 1) + (if Agrees(u, c, k - 1) then [Match(u[k - 1], k - 1, k - 1)] else [])
  }

  /** The agreeing positions below `k`. */
  function AgreeBelow(u: string, c: string, k: nat): set<nat> {
    set i | 0 <= i < k && Agrees(u, c, i)
  }

  /** Every entry of the diagonal is an agreeing position below `k`, read
      at the same index on both sides. */
  lemma {:induction false} DiagonalEntries(u: string, c: string, k: nat)
    requires k <= |u|
    ensures forall m :: 0 <= m < |Diagonal(u, c, k)| ==>
      var x := Diagonal(u, c, k)[m];
      x.pos1 == x.pos2 && x.pos1 < k && Agrees(u, c, x.pos1) && x.ch == u[x.pos1]
  {
    if k > 0 {
      DiagonalEntries(u, c, k - 1);
      var d, d' := Diagonal(u, c, k), Diagonal(u, c, k - 1);
      assert forall m :: 0 <= m < |d'| ==> d[m] == d'[m];
    }
  }

  /** The diagonal is strictly increasing. */
  lemma {:induction false} DiagonalSorted(u: string, c: string, k: nat)
    requires k <= |u|
    ensures forall m, l :: 0 <= m < l < |Diagonal(u, c, k)| ==> Diagonal(u, c, k)[m].pos1 < Diagonal(u, c, k)[l].pos1
  {
    if k > 0 {
      DiagonalSorted(u, c, k - 1);
      DiagonalEntries(u, c, k - 1);
      var d, d' := Diagonal(u, c, k), Diagonal(u, c, k - 1);
      assert forall m :: 0 <= m < |d'| ==> d[m] == d'[m];
    }
  }

  lemma {:induction false} PositionsSnoc(s: seq<Match>, x: Match, first: bool)
    ensures Positions(s + [x], first) == Positions(s, first) + {Pos(x, first)}
  {
    var t := s + [x];
    forall i | i in Positions(t, first) ensures i in Positions(s, first) + {Pos(x, first)} {
      var m :| 0 <= m < |t| && Pos(t[m], first) == i;
      if m < |s| { assert Pos(s[m], first) == i; }
    }
    forall i | i in Positions(s, first) ensures i in Positions(t, first) {
      var m :| 0 <= m < |s| && Pos(s[m], first) == i;
      assert Pos(t[m], first) == i;
    }
    assert Pos(t[|s|], first) == Pos(x, first);
  }

  /** The diagonal's positions, on either side, are exactly the agreeing
      positions below `k`. */
  lemma {:induction false} DiagonalPositions(u: string, c: string, k: nat, first: bool)
    requires k <= |u|
    ensures Positions(Diagonal(u, c, k), first) == AgreeBelow(u, c, k)
  {
    if k > 0 {
      DiagonalPositions(u, c, k - 1, first);
      var d' := Diagonal(u, c, k - 1);
      if Agrees(u, c, k - 1) {
        PositionsSnoc(d', Match(u[k - 1], k - 1, k - 1), first);
        assert AgreeBelow(u, c, k) == AgreeBelow(u, c, k - 1) + {k - 1};
      } else {
        assert Diagonal(u, c, k) == d';
        assert AgreeBelow(u, c, k) == AgreeBelow(u, c, k - 1);
      }
    } else {
      assert AgreeBelow(u, c, 0) == {};
    }
  }

  /** The agreeing positions are a common subsequence read at equal
      indices in both answers. */
  lemma {:induction false} DiagonalIsMatching(u: string, c: string)
    ensures Picks(u, Diagonal(u, c, |u|), true)
    ensures Picks(c, Diagonal(u, c, |u|), false)
    ensures IsMatching(u, c, Diagonal(u, c, |u|), |u|, |c|)
    ensures Positions(Diagonal(u, c, |u|), true) == Agreement(u, c)
    ensures Positions(Diagonal(u, c, |u|), false) == Agreement(u, c)
  {
    DiagonalEntries(u, c, |u|);
    DiagonalSorted(u, c, |u|);
    DiagonalPositions(u, c, |u|, true);
    DiagonalPositions(u, c, |u|, false);
    assert AgreeBelow(u, c, |u|) == Agreement(u, c);
  }

  lemma {:induction false} MarksPrefix(s: string, k: nat, p: set<nat>, miss: Status)
    requires k < |s|
    ensures Marks(s[..k + 1], p, miss) == Marks(s[..k], p, miss) + [Mark(s[k], if k in p then Correct else miss)]
  {
    assert s[..k + 1][..k] == s[..k];
  }

  /** The marks of position `i` extend the marks of the positions before
      it; past the end of `s` nothing is added. */
  lemma {:induction false} MarksStep(s: string, i: nat, p: set<nat>, miss: Status)
    ensures Marks(s[..Min(i + 1, |s|)], p, miss)
         == Marks(s[..Min(i, |s|)], p, miss) + (if i < |s| then [Mark(s[i], if i in p then Correct else miss)] else [])
  {
    if i < |s| {
      MarksPrefix(s, i, p, miss);
    }
  }

  /** The mark a position gets, on the user side and on the expected side. */
  function UserMark(u: string, c: string, i: nat): seq<Mark> {
    if i < |u| then [Mark(u[i], if i < |c| && u[i] == c[i] then Correct else Incorrect)] else []
  }

  function ExpectedMark(u: string, c: string, i: nat): seq<Mark> {
    if i < |c| then [Mark(c[i], if i < |u| && u[i] == c[i] then Correct else Missing)] else []
  }

  /** One round of the loop extends both diffs by the marks of position
      `i`. */
  lemma {:induction false} LoopStep(u: string, c: string, i: nat)
    ensures Marks(u[..Min(i + 1, |u|)], Agreement(u, c), Incorrect)
         == Marks(u[..Min(i, |u|)], Agreement(u, c), Incorrect) + UserMark(u, c, i)
    ensures Marks(c[..Min(i + 1, |c|)], Agreement(u, c), Missing)
         == Marks(c[..Min(i, |c|)], Agreement(u, c), Missing) + ExpectedMark(u, c, i)
  {
    assert i in Agreement(u, c) <==> i < |u| && i < |c| && u[i] == c[i];
    MarksStep(u, i, Agreement(u, c), Incorrect);
    MarksStep(c, i, Agreement(u, c), Missing);
  }

  /** The loop of `compareAnswers` over `max(|u|, |c|)` positions. */
  method PositionalMarks(u: string, c: string) returns (userDiff: seq<Mark>, correctDiff: seq<Mark>)
    ensures userDiff == Marks(u, Agreement(u, c), Incorrect)
    ensures correctDiff == Marks(c, Agreement(u, c), Missing)
  {
    var agree := Agreement(u, c);
    userDiff, correctDiff := [], [];
    var maxLen := Max(|u|, |c|);
    var i := 0;
    while i < maxLen
      invariant 0 <= i <= maxLen
      invariant userDiff == Marks(u[..Min(i, |u|)], agree, Incorrect)
      invariant correctDiff == Marks(c[..Min(i, |c|)], agree, Missing)
    {
      LoopStep(u, c, i);
      userDiff := userDiff + UserMark(u, c, i);
      correctDiff := correctDiff + ExpectedMark(u, c, i);
      i := i + 1;
    }
    assert u[..|u|] == u && c[..|c|] == c;
  }

  /** Both diffs of the positional comparison mark the same characters correct,
      and never more than the subsequence comparison would. */
  lemma {:induction false} PositionalWithinLcs(u: string, c: string)
    ensures CorrectChars(Marks(u, Agreement(u, c), Incorrect)) == CorrectChars(Marks(c, Agreement(u, c), Missing))
    ensures |CorrectChars(Marks(u, Agreement(u, c), Incorrect))| <= Lcs(u, c, |u|, |c|)
  {
    var diag := Diagonal(u, c, |u|);
    DiagonalIsMatching(u, c);
    CorrectCharsSpellLcs(u, diag, true, Incorrect);
    CorrectCharsSpellLcs(c, diag, false, Missing);
    CharsLength(diag);
    LcsIsOptimal(u, c, diag, |u|, |c|);
  }

  /** Mark by mark: a position is correct exactly when both answers hold
      the same character there. */
  lemma {:induction false} MarksAtPositions(u: string, c: string)
    ensures var d := Marks(u, Agreement(u, c), Incorrect);
      |d| == |u| && forall i :: 0 <= i < |u| ==> d[i] == Mark(u[i], if i < |c| && u[i] == c[i] then Correct else Incorrect)
    ensures var d := Marks(c, Agreement(u, c), Missing);
      |d| == |c| && forall i :: 0 <= i < |c| ==> d[i] == Mark(c[i], if i < |u| && u[i] == c[i] then Correct else Missing)
  {
    forall i | 0 <= i
      ensures i in Agreement(u, c) <==> i < |u| && i < |c| && u[i] == c[i]
    {
    }
  }

  /** `compareAnswers` of fill-the-gaps: a position counts as correct when
      both answers have the same character there; a character only one side
      has is 'incorrect' in the user diff and 'missing' in the expected one.
      An exact match carries no diff at all. */
  function Compare(userAnswer: string, correctAnswer: string): (r: Comparison)
    ensures r.isCorrect <==> Normalize(userAnswer) == Normalize(correctAnswer)
    ensures r.isCorrect <==> r.diff == None
    ensures r.diff.Some? ==>
      var u, c := Normalize(userAnswer), Normalize(correctAnswer);
      var d := r.diff.value;
      && |d.user| == |u| && |d.correct| == |c|
      && (forall i :: 0 <= i < |u| ==>
            d.user[i] == Mark(u[i], if i < |c| && u[i] == c[i] then Correct else Incorrect))
      && (forall i :: 0 <= i < |c| ==>
            d.correct[i] == Mark(c[i], if i < |u| && u[i] == c[i] then Correct else Missing))
      && CorrectChars(d.user) == CorrectChars(d.correct)
      && |CorrectChars(d.user)| <= Lcs(u, c, |u|, |c|)
  {
    var u, c := Normalize(userAnswer), Normalize(correctAnswer);
    if u == c then Comparison(true, None)
    else
      PositionalWithinLcs(u, c);
      MarksAtPositions(u, c);
      Comparison(false, Some(Diff(Marks(u, Agreement(u, c), Incorrect), Marks(c, Agreement(u, c), Missing))))
  }

  /** The loop over `max(|u|, |c|)` positions computes the definition. */
  method CompareAnswers(userAnswer: string, correctAnswer: string) returns (r: Comparison)
    ensures r == Compare(userAnswer, correctAnswer)
  {
    var u := Normalize(userAnswer);
    var c := Normalize(correctAnswer);
    if u == c {
      return Comparison(true, None);
    }
    var userDiff, correctDiff := PositionalMarks(u, c);
    r := Comparison(false, Some(Diff(userDiff, correctDiff)));
  }
}
