/** Free-text grading of writing practice: `computeLCS` (a dynamic-programming
    table and its backtrack) and `compareAnswers`, which marks each character
    of both normalized answers as part of the common subsequence or not. */
module LcsDiff {
  import opened Common
  import opened TextNormalize

  /** One entry of the list `computeLCS` returns: `{char, pos1, pos2}`. */
  datatype Match = Match(ch: char, pos1: nat, pos2: nat)

  datatype Status = Correct | Incorrect | Missing
  datatype Mark = Mark(ch: char, status: Status)
  datatype Diff = Diff(user: seq<Mark>, correct: seq<Mark>)

  /** `{ isCorrect, diff }`; `diff` is `null` (here `None`) on an exact match. */
  datatype Comparison = Comparison(isCorrect: bool, diff: Option<Diff>)

  /** The value the table holds at `dp[i][j]`: the length of a longest common
      subsequence of `a[..i]` and `b[..j]`. */
  function Lcs(a: string, b: string, i: nat, j: nat): nat
    requires i <= |a| && j <= |b|
  {
    if i == 0 || j == 0 then 0
    else if a[i - 1] == b[j - 1] then Lcs(a, b, i - 1, j - 1) + 1
    else Max(Lcs(a, b, i - 1, j), Lcs(a, b, i, j - 1))
  }

  /** The backtrack from `(i, j)`, in the order `unshift` leaves the list:
      on equal characters both indices step back; otherwise `i` steps back
      only when `dp[i-1][j] > dp[i][j-1]`, so a tie decrements `j`. */
  function Backtrack(a: string, b: string, i: nat, j: nat): seq<Match>
    requires i <= |a| && j <= |b|
    decreases i + j
  {
    if i == 0 || j == 0 then []
    else if a[i - 1] == b[j - 1] then Backtrack(a, b, i - 1, j - 1) + [Match(a[i - 1], i - 1, j - 1)]
    else if Lcs(a, b, i - 1, j) > Lcs(a, b, i, j - 1) then Backtrack(a, b, i - 1, j)
    else Backtrack(a, b, i, j - 1)
  }

  /** `m` is a common subsequence of `a[..i]` and `b[..j]` given by positions:
      both position lists strictly increase and name equal characters. */
  predicate IsMatching(a: string, b: string, m: seq<Match>, i: nat, j: nat)
    requires i <= |a| && j <= |b|
  {
    && (forall k :: 0 <= k < |m| ==>
          m[k].pos1 < i && m[k].pos2 < j && a[m[k].pos1] == m[k].ch && b[m[k].pos2] == m[k].ch)
    && (forall k, l :: 0 <= k < l < |m| ==> m[k].pos1 < m[l].pos1 && m[k].pos2 < m[l].pos2)
  }

  /** The backtrack yields a valid common subsequence as long as the table says. */
  lemma {:induction false} BacktrackIsMatching(a: string, b: string, i: nat, j: nat)
    requires i <= |a| && j <= |b|
    ensures IsMatching(a, b, Backtrack(a, b, i, j), i, j)
    ensures |Backtrack(a, b, i, j)| == Lcs(a, b, i, j)
    decreases i + j
  {
    if i == 0 || j == 0 {
    } else if a[i - 1] == b[j - 1] {
      BacktrackIsMatching(a, b, i - 1, j - 1);
    } else if Lcs(a, b, i - 1, j) > Lcs(a, b, i, j - 1) {
      BacktrackIsMatching(a, b, i - 1, j);
    } else {
      BacktrackIsMatching(a, b, i, j - 1);
    }
  }

  /** No common subsequence is longer than `dp[i][j]`. */
  lemma {:induction false} LcsIsOptimal(a: string, b: string, m: seq<Match>, i: nat, j: nat)
    requires i <= |a| && j <= |b|
    requires IsMatching(a, b, m, i, j)
    ensures |m| <= Lcs(a, b, i, j)
    decreases i + j
  {
    if m == [] {
    } else {
      var last := m[|m| - 1];
      var init := m[..|m| - 1];
      assert IsMatching(a, b, init, last.pos1, last.pos2) by {
        forall k | 0 <= k < |init|
          ensures init[k].pos1 < last.pos1 && init[k].pos2 < last.pos2
        {
          assert init[k] == m[k];
        }
      }
      if a[i - 1] == b[j - 1] {
        assert IsMatching(a, b, init, i - 1, j - 1);
        LcsIsOptimal(a, b, init, i - 1, j - 1);
      } else if last.pos1 < i - 1 {
        assert IsMatching(a, b, m, i - 1, j);
        LcsIsOptimal(a, b, m, i - 1, j);
      } else {
        assert last.pos2 < j - 1;
        assert IsMatching(a, b, m, i, j - 1);
        LcsIsOptimal(a, b, m, i, j - 1);
      }
    }
  }

  /** Row `p` of the table: `row[q] == Lcs(a, b, p, q)` for every column. */
  predicate IsRow(a: string, b: string, p: nat, row: seq<nat>)
    requires p <= |a|
  {
    |row| == |b| + 1 && forall q :: 0 <= q <= |b| ==> row[q] == Lcs(a, b, p, q)
  }

  /** `dp[p][q] == Lcs(a, b, p, q)` for every cell of the table. */
  predicate IsTable(a: string, b: string, dp: seq<seq<nat>>) {
    |dp| == |a| + 1 && forall p :: 0 <= p <= |a| ==> IsRow(a, b, p, dp[p])
  }

  /** One pass of the inner loop of `computeLCS`: row `i` from row `i - 1`. */
  method FillRow(a: string, b: string, i: nat, prev: seq<nat>) returns (row: seq<nat>)
    requires 1 <= i <= |a|
    requires IsRow(a, b, i - 1, prev)
    ensures IsRow(a, b, i, row)
  {
    row := [0];
    var j := 1;
    while j <= |b|
      invariant 1 <= j <= |b| + 1
      invariant |row| == j
      invariant forall q :: 0 <= q < j ==> row[q] == Lcs(a, b, i, q)
    {
      if a[i - 1] == b[j - 1] {
        row := row + [prev[j - 1] + 1];
      } else {
        row := row + [Max(prev[j], row[j - 1])];
      }
      j := j + 1;
    }
  }

  /** The filled `(m+1) x (n+1)` table of `computeLCS`. */
  method LcsTable(a: string, b: string) returns (dp: seq<seq<nat>>)
    ensures IsTable(a, b, dp)
  {
    var zero := seq(|b| + 1, _ => 0);
    assert IsRow(a, b, 0, zero);
    dp := [zero];
    var i := 1;
    while i <= |a|
      invariant 1 <= i <= |a| + 1
      invariant |dp| == i
      invariant forall p :: 0 <= p < i ==> IsRow(a, b, p, dp[p])
    {
      var row := FillRow(a, b, i, dp[i - 1]);
      dp := dp + [row];
      i := i + 1;
    }
  }

  /** The backtrack loop of `computeLCS`, prepending each match. */
  method Walk(a: string, b: string, dp: seq<seq<nat>>) returns (lcs: seq<Match>)
    requires IsTable(a, b, dp)
    ensures lcs == Backtrack(a, b, |a|, |b|)
  {
    lcs := [];
    var x, y := |a|, |b|;
    while x > 0 && y > 0
      invariant 0 <= x <= |a| && 0 <= y <= |b|
      invariant Backtrack(a, b, |a|, |b|) == Backtrack(a, b, x, y) + lcs
      decreases x + y
    {
      if a[x - 1] == b[y - 1] {
        lcs := [Match(a[x - 1], x - 1, y - 1)] + lcs;
        x, y := x - 1, y - 1;
      } else if dp[x - 1][y] > dp[x][y - 1] {
        x := x - 1;
      } else {
        y := y - 1;
      }
    }
  }

  /** `computeLCS(str1, str2)`: a longest common subsequence, as positions. */
  method ComputeLcs(a: string, b: string) returns (lcs: seq<Match>)
    ensures lcs == Backtrack(a, b, |a|, |b|)
    ensures IsMatching(a, b, lcs, |a|, |b|)
    ensures |lcs| == Lcs(a, b, |a|, |b|)
    ensures forall m :: IsMatching(a, b, m, |a|, |b|) ==> |m| <= |lcs|
  {
    var dp := LcsTable(a, b);
    lcs := Walk(a, b, dp);
    BacktrackIsMatching(a, b, |a|, |b|);
    forall mm | IsMatching(a, b, mm, |a|, |b|)
      ensures |mm| <= |lcs|
    {
      LcsIsOptimal(a, b, mm, |a|, |b|);
    }
  }

  /** The two `Set`s `compareAnswers` builds from the list: `lcs.map(pos1)`
      and `lcs.map(pos2)`. */
  function Positions(lcs: seq<Match>, first: bool): set<nat> {
    set k | 0 <= k < |lcs| :: if first then lcs[k].pos1 else lcs[k].pos2
  }

  /** One mark per character: `hit` status where the index is in `inLcs`,
      `miss` status elsewhere (the two diff loops of `compareAnswers`). */
  function Marks(s: string, inLcs: set<nat>, miss: Status): (r: seq<Mark>)
    ensures |r| == |s|
    ensures forall i :: 0 <= i < |s| ==>
      r[i] == Mark(s[i], if i in inLcs then Correct else miss)
  {
    if s == [] then [] else Marks(s[..|s| - 1], inLcs, miss) + [Mark(s[|s| - 1], if |s| - 1 in inLcs then Correct else miss)]
  }

  /** The characters marked 'correct', in order. */
  function CorrectChars(ms: seq<Mark>): string {
    if ms == [] then []
    else CorrectChars(ms[..|ms| - 1]) + (if ms[|ms| - 1].status == Correct then [ms[|ms| - 1].ch] else [])
  }

  function Chars(lcs: seq<Match>): string {
    if lcs == [] then [] else Chars(lcs[..|lcs| - 1]) + [lcs[|lcs| - 1].ch]
  }

  function Pos(x: Match, first: bool): nat {
    if first then x.pos1 else x.pos2
  }

  /** `lcs` picks characters of `s` at strictly increasing positions. */
  predicate Picks(s: string, lcs: seq<Match>, first: bool) {
    && (forall k :: 0 <= k < |lcs| ==> Pos(lcs[k], first) < |s| && s[Pos(lcs[k], first)] == lcs[k].ch)
    && (forall k, l :: 0 <= k < l < |lcs| ==> Pos(lcs[k], first) < Pos(lcs[l], first))
  }

  lemma {:induction false} MarksAgree(s: string, p: set<nat>, q: set<nat>, miss: Status)
    requires forall i :: 0 <= i < |s| ==> (i in p <==> i in q)
    ensures Marks(s, p, miss) == Marks(s, q, miss)
  {
  }

  /** Reading the 'correct' marks of a diff spells the common subsequence. */
  lemma {:induction false} CorrectCharsSpellLcs(s: string, lcs: seq<Match>, first: bool, miss: Status)
    requires Picks(s, lcs, first)
    requires miss != Correct
    ensures CorrectChars(Marks(s, Positions(lcs, first), miss)) == Chars(lcs)
    decreases |s|
  {
    if s == [] {
    } else if lcs != [] && Pos(lcs[|lcs| - 1], first) == |s| - 1 {
      var s', lcs' := s[..|s| - 1], lcs[..|lcs| - 1];
      LastPicked(s, lcs, first, miss);
      CorrectCharsSpellLcs(s', lcs', first, miss);
    } else {
      LastNotPicked(s, lcs, first, miss);
      CorrectCharsSpellLcs(s[..|s| - 1], lcs, first, miss);
    }
  }

  /** Step of the spelling proof when the last character is the last match. */
  lemma {:induction false} LastPicked(s: string, lcs: seq<Match>, first: bool, miss: Status)
    requires Picks(s, lcs, first) && miss != Correct
    requires s != [] && lcs != [] && Pos(lcs[|lcs| - 1], first) == |s| - 1
    ensures Picks(s[..|s| - 1], lcs[..|lcs| - 1], first)
    ensures CorrectChars(Marks(s, Positions(lcs, first), miss))
         == CorrectChars(Marks(s[..|s| - 1], Positions(lcs[..|lcs| - 1], first), miss)) + [lcs[|lcs| - 1].ch]
  {
    var n := |s|;
    var s', lcs' := s[..n - 1], lcs[..|lcs| - 1];
    var P, P' := Positions(lcs, first), Positions(lcs', first);
    PicksInit(s, lcs, first);
    PositionsInit(s, lcs, first);
    MarksAgree(s', P, P', miss);
    assert n - 1 in P;
    var ms := Marks(s, P, miss);
    assert ms[..n - 1] == Marks(s', P, miss);
    assert ms[n - 1] == Mark(s[n - 1], Correct);
  }

  lemma {:induction false} PicksInit(s: string, lcs: seq<Match>, first: bool)
    requires Picks(s, lcs, first)
    requires s != [] && lcs != [] && Pos(lcs[|lcs| - 1], first) == |s| - 1
    ensures Picks(s[..|s| - 1], lcs[..|lcs| - 1], first)
  {
    var s', lcs' := s[..|s| - 1], lcs[..|lcs| - 1];
    forall k | 0 <= k < |lcs'|
      ensures Pos(lcs'[k], first) < |s'| && s'[Pos(lcs'[k], first)] == lcs'[k].ch
    {
      assert lcs'[k] == lcs[k];
      assert Pos(lcs[k], first) < Pos(lcs[|lcs| - 1], first);
    }
    assert forall k, l :: 0 <= k < l < |lcs'| ==> lcs'[k] == lcs[k] && lcs'[l] == lcs[l];
  }

  lemma {:induction false} PositionsInit(s: string, lcs: seq<Match>, first: bool)
    requires Picks(s, lcs, first)
    requires s != [] && lcs != [] && Pos(lcs[|lcs| - 1], first) == |s| - 1
    ensures forall i :: 0 <= i < |s| - 1 ==>
      (i in Positions(lcs, first) <==> i in Positions(lcs[..|lcs| - 1], first))
  {
    var lcs' := lcs[..|lcs| - 1];
    var P, P' := Positions(lcs, first), Positions(lcs', first);
    forall i | 0 <= i < |s| - 1
      ensures i in P <==> i in P'
    {
      if i in P {
        var k :| 0 <= k < |lcs| && Pos(lcs[k], first) == i;
        assert k != |lcs| - 1;
        assert lcs'[k] == lcs[k];
        assert Pos(lcs'[k], first) == i;
      }
      if i in P' {
        var k :| 0 <= k < |lcs'| && Pos(lcs'[k], first) == i;
        assert lcs[k] == lcs'[k];
        assert Pos(lcs[k], first) == i;
      }
    }
  }

  /** Step of the spelling proof when the last character is not matched. */
  lemma {:induction false} LastNotPicked(s: string, lcs: seq<Match>, first: bool, miss: Status)
    requires Picks(s, lcs, first) && miss != Correct
    requires s != [] && !(lcs != [] && Pos(lcs[|lcs| - 1], first) == |s| - 1)
    ensures Picks(s[..|s| - 1], lcs, first)
    ensures CorrectChars(Marks(s, Positions(lcs, first), miss))
         == CorrectChars(Marks(s[..|s| - 1], Positions(lcs, first), miss))
  {
    var n := |s|;
    var P := Positions(lcs, first);
    forall k | 0 <= k < |lcs|
      ensures Pos(lcs[k], first) < n - 1
    {
      if k < |lcs| - 1 {
        assert Pos(lcs[k], first) < Pos(lcs[|lcs| - 1], first);
      }
    }
    assert n - 1 !in P;
    assert Marks(s, P, miss) == Marks(s[..n - 1], P, miss) + [Mark(s[n - 1], miss)];
  }

  lemma {:induction false} CharsLength(lcs: seq<Match>)
    ensures |Chars(lcs)| == |lcs|
  {
    if lcs != [] {
      CharsLength(lcs[..|lcs| - 1]);
    }
  }

  /** `compareAnswers(userAnswer, correctAnswer)` of writing practice: equal
      normalized answers are correct with no diff; otherwise each character
      of either answer is marked by whether the backtracked common
      subsequence uses it. */
  function Compare(userAnswer: string, correctAnswer: string): (r: Comparison)
    ensures r.isCorrect <==> Normalize(userAnswer) == Normalize(correctAnswer)
    ensures r.isCorrect <==> r.diff == None
    ensures r.diff.Some? ==>
      var u, c := Normalize(userAnswer), Normalize(correctAnswer);
      var d := r.diff.value;
      && |d.user| == |u| && |d.correct| == |c|
      && (forall i :: 0 <= i < |u| ==> d.user[i].ch == u[i] && d.user[i].status in {Correct, Incorrect})
      && (forall i :: 0 <= i < |c| ==> d.correct[i].ch == c[i] && d.correct[i].status in {Correct, Missing})
      && CorrectChars(d.user) == CorrectChars(d.correct)
      && |CorrectChars(d.user)| == Lcs(u, c, |u|, |c|)
  {
    var u, c := Normalize(userAnswer), Normalize(correctAnswer);
    if u == c then Comparison(true, None)
    else
      var lcs := Backtrack(u, c, |u|, |c|);
      BacktrackIsMatching(u, c, |u|, |c|);
      CorrectCharsSpellLcs(u, lcs, true, Incorrect);
      CorrectCharsSpellLcs(c, lcs, false, Missing);
      CharsLength(lcs);
      Comparison(false, Some(Diff(Marks(u, Positions(lcs, true), Incorrect), Marks(c, Positions(lcs, false), Missing))))
  }

  /** The table-driven `compareAnswers` computes the same verdict and diffs
      as the recursive definition. */
  method CompareAnswers(userAnswer: string, correctAnswer: string) returns (r: Comparison)
    ensures r == Compare(userAnswer, correctAnswer)
  {
    var u := Normalize(userAnswer);
    var c := Normalize(correctAnswer);
    if u == c {
      return Comparison(true, None);
    }
    var lcs := ComputeLcs(u, c);
    var userDiff := Marks(u, Positions(lcs, true), Incorrect);
    var correctDiff := Marks(c, Positions(lcs, false), Missing);
    r := Comparison(false, Some(Diff(userDiff, correctDiff)));
  }

  /** `handleSkip`: no user marks, every character of the expected answer
      shown as 'missing'. */
  function SkipResult(correctAnswer: string): (r: Comparison)
    ensures !r.isCorrect && r.diff.Some?
    ensures r.diff.value.user == []
    ensures |r.diff.value.correct| == |Normalize(correctAnswer)|
    ensures forall i :: 0 <= i < |r.diff.value.correct| ==>
      r.diff.value.correct[i] == Mark(Normalize(correctAnswer)[i], Missing)
  {
    Comparison(false, Some(Diff([], Marks(Normalize(correctAnswer), {}, Missing))))
  }
}
