/** The composite test: a shuffled pool of flashcards is split into four
    phase quotas (multiple choice, matching, writing, fill the gaps), each
    phase reports a list of per-card results, and the summary grades the
    whole run. Phases are numbered as in the `phases` array: 0 multiple
    choice, 1 matching, 2 writing, 3 fill the gaps, 4 the summary. */
module TestFlow {
  import opened Common

  datatype TestType = Short | Long

  /** `mode === 'long_test' ? 'long' : 'short'` */
  function TypeOf(mode: string): (t: TestType)
    ensures t.Long? <==> mode == "long_test"
  {
    if mode == "long_test" then Long else Short
  }

  /** One row of `testConfig`. */
  datatype Config = Config(multipleChoice: nat, matching: nat, writing: nat, fillGaps: nat, total: nat)

  /** `testConfig[testType]`: the quotas of every phase add up to the
      advertised total, and the long test asks three times the short one. */
  function ConfigFor(t: TestType): (c: Config)
    ensures QuotaSum(Quotas(c), 4) == c.total
    ensures t.Short? ==> c.total == 13
    ensures t.Long? ==> c.total == 39
  {
    match t
    case Short => Config(2, 5, 4, 2, 13)
    case Long => Config(6, 15, 12, 6, 39)
  }

  lemma LongTriplesShort()
    ensures forall p :: 0 <= p < 4 ==> Quotas(ConfigFor(Long))[p] == 3 * Quotas(ConfigFor(Short))[p]
    ensures ConfigFor(Long).total == 3 * ConfigFor(Short).total
  {
  }

  /** The quotas in phase order. */
  function Quotas(c: Config): (q: seq<nat>)
    ensures |q| == 4
  {
    [c.multipleChoice, c.matching, c.writing, c.fillGaps]
  }

  /** The quotas of the first `k` phases together. */
  function QuotaSum(q: seq<nat>, k: nat): nat
    requires k <= |q|
  {
    if k == 0 then 0 else QuotaSum(q, k - 1) + q[k - 1]
  }

  /** Where phase `k` starts in a pool of `n` cards: its quota offset, or
      the end of the pool once that has run out. */
  function Cut(n: nat, q: seq<nat>, k: nat): (r: nat)
    requires k <= |q|
    ensures r <= n
  {
    Min(QuotaSum(q, k), n)
  }

  lemma {:induction false} CutMonotone(n: nat, q: seq<nat>, j: nat, k: nat)
    requires j <= k <= |q|
    ensures Cut(n, q, j) <= Cut(n, q, k)
    decreases k - j
  {
    if j < k {
      CutMonotone(n, q, j + 1, k);
    }
  }

  /** The reference reading of the selection: phase `p` is the slice of the
      shuffled pool between its cut and the next. */
  function PhaseSlice<T>(shuffled: seq<T>, q: seq<nat>, p: nat): seq<T>
    requires p < |q|
  {
    shuffled[Cut(|shuffled|, q, p)..Cut(|shuffled|, q, p + 1)]
  }

  function Phases<T>(shuffled: seq<T>, q: seq<nat>): (sel: seq<seq<T>>)
    ensures |sel| == |q|
    ensures forall p :: 0 <= p < |q| ==> sel[p] == PhaseSlice(shuffled, q, p)
  {
    seq(|q|, p requires 0 <= p < |q| => PhaseSlice(shuffled, q, p))
  }

  /** The indices below `u`. */
  function Prefix(u: nat): (r: set<int>)
    ensures forall k :: k in r <==> 0 <= k < u
  {
    if u == 0 then {} else Prefix(u - 1) + {u - 1}
  }

  /** One selection loop of `fetchData`: walk the shuffled pool and take
      every index not used yet, until the quota is met. With the used
      indices a prefix of the pool, what is taken is the next slice. */
  method SelectPhase<T>(shuffled: seq<T>, used: set<int>, quota: nat, ghost u: nat)
    returns (picked: seq<T>, usedAfter: set<int>)
    requires u <= |shuffled| && used == Prefix(u)
    ensures picked == shuffled[u..Min(u + quota, |shuffled|)]
    ensures usedAfter == Prefix(u + |picked|)
  {
    picked := [];
    usedAfter := used;
    var count := 0;
    var i := 0;
    while i < |shuffled| && count < quota
      invariant 0 <= i <= |shuffled|
      invariant count == |picked| <= quota
      invariant i <= u ==> picked == [] && usedAfter == used
      invariant i > u ==> picked == shuffled[u..i] && usedAfter == Prefix(i)
    {
      if i !in usedAfter {
        assert i >= u;
        assert Prefix(i + 1) == Prefix(i) + {i};
        assert shuffled[u..i + 1] == shuffled[u..i] + [shuffled[i]];
        picked := picked + [shuffled[i]];
        usedAfter := usedAfter + {i};
        count := count + 1;
      }
      i := i + 1;
    }
  }

  /** The four selection loops in phase order, sharing one set of used
      indices: the result is the reference slicing of the pool. */
  method Partition<T>(shuffled: seq<T>, q: seq<nat>) returns (sel: seq<seq<T>>)
    ensures sel == Phases(shuffled, q)
  {
    var used: set<int> := {};
    sel := [];
    ghost var u := 0;
    var p := 0;
    while p < |q|
      invariant 0 <= p <= |q| && |sel| == p
      invariant u == Cut(|shuffled|, q, p) && used == Prefix(u)
      invariant forall k :: 0 <= k < p ==> sel[k] == PhaseSlice(shuffled, q, k)
    {
      var picked;
      picked, used := SelectPhase(shuffled, used, q[p], u);
      sel := sel + [picked];
      u := u + |picked|;
      p := p + 1;
    }
  }

  /** Every phase gets at most its quota, and exactly its quota when the
      pool holds the whole total. */
  lemma {:induction false} PhaseSizes<T>(shuffled: seq<T>, c: Config, p: nat)
    requires p < 4
    ensures |PhaseSlice(shuffled, Quotas(c), p)| <= Quotas(c)[p]
    ensures |shuffled| >= c.total && QuotaSum(Quotas(c), 4) == c.total ==>
      |PhaseSlice(shuffled, Quotas(c), p)| == Quotas(c)[p]
  {
    var q := Quotas(c);
    assert QuotaSum(q, 1) == q[0];
    assert QuotaSum(q, 2) == q[0] + q[1];
    assert QuotaSum(q, 3) == q[0] + q[1] + q[2];
    assert QuotaSum(q, 4) == q[0] + q[1] + q[2] + q[3];
  }

  /** Taken together the phases are the first `total` cards of the pool (or
      all of it), in pool order. */
  lemma {:induction false} PhasesCover<T>(shuffled: seq<T>, c: Config)
    ensures var sel := Phases(shuffled, Quotas(c));
      sel[0] + sel[1] + sel[2] + sel[3] == shuffled[..Cut(|shuffled|, Quotas(c), 4)]
  {
    var q := Quotas(c);
    var n := |shuffled|;
    var sel := Phases(shuffled, q);
    var c1, c2, c3, c4 := Cut(n, q, 1), Cut(n, q, 2), Cut(n, q, 3), Cut(n, q, 4);
    CutMonotone(n, q, 0, 1);
    CutMonotone(n, q, 1, 2);
    CutMonotone(n, q, 2, 3);
    CutMonotone(n, q, 3, 4);
    assert sel[0] == shuffled[0..c1];
    assert sel[1] == shuffled[c1..c2];
    assert sel[2] == shuffled[c2..c3];
    assert sel[3] == shuffled[c3..c4];
    SliceJoin(shuffled, 0, c1, c2);
    SliceJoin(shuffled, 0, c2, c3);
    SliceJoin(shuffled, 0, c3, c4);
  }

  lemma SliceJoin<T>(s: seq<T>, a: nat, b: nat, c: nat)
    requires a <= b <= c <= |s|
    ensures s[a..b] + s[b..c] == s[a..c]
  {
  }

  /** No card position is used twice: when the pool holds no card twice,
      two different phases share no card. */
  lemma {:induction false} PhasesDisjoint<T>(shuffled: seq<T>, q: seq<nat>, p1: nat, p2: nat, x: T)
    requires forall i, j :: 0 <= i < j < |shuffled| ==> shuffled[i] != shuffled[j]
    requires p1 < p2 < |q|
    ensures x in PhaseSlice(shuffled, q, p1) ==> x !in PhaseSlice(shuffled, q, p2)
  {
    var n := |shuffled|;
    if x in PhaseSlice(shuffled, q, p1) && x in PhaseSlice(shuffled, q, p2) {
      var i :| Cut(n, q, p1) <= i < Cut(n, q, p1 + 1) && shuffled[i] == x;
      var j :| Cut(n, q, p2) <= j < Cut(n, q, p2 + 1) && shuffled[j] == x;
      CutMonotone(n, q, p1 + 1, p2);
    }
  }

  /** What a phase reports for one card. */
  datatype Result = Result(flashcardId: int, correct: bool)

  function IsCorrect(r: Result): bool { r.correct }

  /** The per-card record saved with the test. */
  datatype Detail = Detail(correct: nat, total: nat, mastery: real)

  datatype ModeScore = ModeScore(correct: nat, total: nat, percentage: real)

  datatype Grade = A | B | C | D | F

  /** The payload of `saveTestResults`. */
  datatype Saved = Saved(testType: TestType, score: real, totalQuestions: nat, correctAnswers: nat,
                         answers: seq<seq<Result>>, vocabDetails: map<int, Detail>)

  /** What the test page shows. */
  datatype View = NotEnough(need: nat, have: nat) | InPhase(index: nat) | Summary

  datatype Test = Test(kind: TestType, pool: seq<Flashcard>, selections: seq<seq<Flashcard>>,
                       phase: nat, results: seq<seq<Result>>, saved: Option<Saved>)

  /** `fetchData` on the plan's cards, shuffled into `order`. An empty plan
      leaves the pool empty (and so too small for any test). */
  function Start(mode: string, cards: seq<Flashcard>, order: seq<Flashcard>): (t: Test)
    requires multiset(order) == multiset(cards)
    ensures t.kind == TypeOf(mode) && t.phase == 0 && t.saved == None
    ensures multiset(t.pool) == multiset(cards)
    ensures |t.selections| == 4 && |t.results| == 4
    ensures forall p :: 0 <= p < 4 ==> t.results[p] == []
    ensures forall p :: 0 <= p < 4 ==> t.selections[p] == PhaseSlice(t.pool, Quotas(ConfigFor(t.kind)), p)
  {
    var kind := TypeOf(mode);
    var pool := if |cards| == 0 then [] else order;
    Test(kind, pool, Phases(pool, Quotas(ConfigFor(kind))), 0, [[], [], [], []], None)
  }

  /** What the page shows: a pool short of the total stops the test before
      its first phase, whatever phase is recorded. */
  function ViewOf(t: Test): (v: View)
    ensures v.NotEnough? <==> |t.pool| < ConfigFor(t.kind).total
    ensures v.NotEnough? ==> v.need == ConfigFor(t.kind).total && v.have == |t.pool|
    ensures v.InPhase? ==> v.index == t.phase < 4
    ensures v.Summary? ==> t.phase >= 4
  {
    var c := ConfigFor(t.kind);
    if |t.pool| < c.total then NotEnough(c.total, |t.pool|)
    else if t.phase >= 4 then Summary
    else InPhase(t.phase)
  }

  /** `handlePhaseComplete`: the phase's results are recorded, and the test
      moves to the next phase, or after the last one to the summary, where
      the results are saved. */
  function PhaseComplete(t: Test, results: seq<Result>): (r: Test)
    requires t.phase < 4 && |t.results| == 4
    ensures |r.results| == 4 && r.results[t.phase] == results
    ensures forall p :: 0 <= p < 4 && p != t.phase ==> r.results[p] == t.results[p]
    ensures r.kind == t.kind && r.pool == t.pool && r.selections == t.selections
    ensures t.phase < 3 ==> r.phase == t.phase + 1 && r.saved == t.saved
    ensures t.phase == 3 ==> r.phase == 4 && r.saved == Some(Save(t.kind, r.results))
  {
    var rs := t.results[t.phase := results];
    if t.phase < 3 then t.(results := rs, phase := t.phase + 1)
    else t.(results := rs, phase := 4, saved := Some(Save(t.kind, rs)))
  }

  /** Four phase completions from the start reach the summary. */
  lemma FourPhasesReachSummary(t: Test, a: seq<Result>, b: seq<Result>, c: seq<Result>, d: seq<Result>)
    requires t.phase == 0 && |t.results| == 4
    ensures var r := PhaseComplete(PhaseComplete(PhaseComplete(PhaseComplete(t, a), b), c), d);
      && r.phase == 4 && r.results == [a, b, c, d] && r.saved.Some?
      && (|t.pool| >= ConfigFor(t.kind).total ==> ViewOf(r) == Summary)
  {
  }

  /** All results in phase order (`Object.values(allResults)`). */
  function Flatten(rs: seq<seq<Result>>): (all: seq<Result>)
  {
    if rs == [] then [] else Flatten(rs[..|rs| - 1]) + rs[|rs| - 1]
  }

  /** A phase's row of `modeScores`. */
  function ScoreOf(rs: seq<Result>): (s: ModeScore)
    ensures s.correct == Count(rs, IsCorrect) && s.total == |rs|
    ensures 0.0 <= s.percentage <= 100.0
    ensures s.total == 0 ==> s.percentage == 0.0
    ensures s.total > 0 ==> (s.percentage == 100.0 <==> forall r :: r in rs ==> r.correct)
  {
    var c := Count(rs, IsCorrect);
    CountFull(rs, IsCorrect);
    ModeScore(c, |rs|, Percent(c, |rs|))
  }

  function Scores(rs: seq<seq<Result>>): (s: seq<ModeScore>)
    ensures |s| == |rs|
    ensures forall k :: 0 <= k < |rs| ==> s[k] == ScoreOf(rs[k])
  {
    if rs == [] then [] else Scores(rs[..|rs| - 1]) + [ScoreOf(rs[|rs| - 1])]
  }

  function SumCorrect(s: seq<ModeScore>): nat
  {
    if s == [] then 0 else SumCorrect(s[..|s| - 1]) + s[|s| - 1].correct
  }

  function SumTotal(s: seq<ModeScore>): nat
  {
    if s == [] then 0 else SumTotal(s[..|s| - 1]) + s[|s| - 1].total
  }

  /** The summary's overall score, from the per-phase rows. */
  function Overall(s: seq<ModeScore>): real
  {
    Percent(SumCorrect(s), SumTotal(s))
  }

  /** The score shown on the summary and the score saved agree: adding up
      the per-phase rows counts every result once. */
  lemma {:induction false} OverallAgrees(rs: seq<seq<Result>>)
    ensures SumCorrect(Scores(rs)) == Count(Flatten(rs), IsCorrect)
    ensures SumTotal(Scores(rs)) == |Flatten(rs)|
    ensures Overall(Scores(rs)) == Percent(Count(Flatten(rs), IsCorrect), |Flatten(rs)|)
  {
    if rs != [] {
      var init := rs[..|rs| - 1];
      OverallAgrees(init);
      assert Scores(rs)[..|rs| - 1] == Scores(init);
      CountAppend(Flatten(init), rs[|rs| - 1], IsCorrect);
    }
  }

  /** `getGrade`, each letter exactly on its band. */
  function GradeOf(score: real): (g: Grade)
    ensures g == A <==> score >= 90.0
    ensures g == B <==> 80.0 <= score < 90.0
    ensures g == C <==> 70.0 <= score < 80.0
    ensures g == D <==> 60.0 <= score < 70.0
    ensures g == F <==> score < 60.0
  {
    if score >= 90.0 then A
    else if score >= 80.0 then B
    else if score >= 70.0 then C
    else if score >= 60.0 then D
    else F
  }

  function Rank(g: Grade): nat
  {
    match g
    case A => 4
    case B => 3
    case C => 2
    case D => 1
    case F => 0
  }

  /** A higher score never earns a lower grade. */
  lemma GradeMonotone(x: real, y: real)
    requires x <= y
    ensures Rank(GradeOf(x)) <= Rank(GradeOf(y))
  {
  }

  /** The strongest area: the first entry after a stable sort by descending
      percentage, which is the first of the highest percentages. */
  function Strongest(ps: seq<real>): (k: nat)
    requires |ps| > 0
    ensures k < |ps|
    ensures forall j :: 0 <= j < |ps| ==> ps[j] <= ps[k]
    ensures forall j :: 0 <= j < k ==> ps[j] < ps[k]
  {
    if |ps| == 1 then 0
    else
      var k := Strongest(ps[..|ps| - 1]);
      if ps[|ps| - 1] > ps[k] then |ps| - 1 else k
  }

  /** The weakest area: the last entry after that sort, which is the last of
      the lowest percentages. */
  function Weakest(ps: seq<real>): (k: nat)
    requires |ps| > 0
    ensures k < |ps|
    ensures forall j :: 0 <= j < |ps| ==> ps[k] <= ps[j]
    ensures forall j :: k < j < |ps| ==> ps[k] < ps[j]
  {
    if |ps| == 1 then 0
    else
      var k := Weakest(ps[..|ps| - 1]);
      if ps[|ps| - 1] <= ps[k] then |ps| - 1 else k
  }

  /** With every phase on the same percentage the strongest area is the
      first phase and the weakest the last one. */
  lemma TiedAreas(ps: seq<real>)
    requires |ps| > 0 && forall j :: 0 <= j < |ps| ==> ps[j] == ps[0]
    ensures Strongest(ps) == 0 && Weakest(ps) == |ps| - 1
  {
  }

  function Percentages(s: seq<ModeScore>): (ps: seq<real>)
    ensures |ps| == |s| && forall k :: 0 <= k < |s| ==> ps[k] == s[k].percentage
  {
    seq(|s|, k requires 0 <= k < |s| => s[k].percentage)
  }

  /** Results for one card, and the correct ones among them. */
  function CountId(rs: seq<Result>, id: int): nat
  {
    if rs == [] then 0 else CountId(rs[..|rs| - 1], id) + (if rs[|rs| - 1].flashcardId == id then 1 else 0)
  }

  function CountIdCorrect(rs: seq<Result>, id: int): (n: nat)
    ensures n <= CountId(rs, id)
  {
    if rs == [] then 0
    else CountIdCorrect(rs[..|rs| - 1], id) + (if rs[|rs| - 1].flashcardId == id && rs[|rs| - 1].correct then 1 else 0)
  }

  function IdsOf(rs: seq<Result>): set<int>
  {
    set r | r in rs :: r.flashcardId
  }

  lemma {:induction false} IdsOfInit(rs: seq<Result>)
    requires rs != []
    ensures IdsOf(rs) == IdsOf(rs[..|rs| - 1]) + {rs[|rs| - 1].flashcardId}
  {
    assert rs == rs[..|rs| - 1] + [rs[|rs| - 1]];
  }

  /** The `vocabDetails` loop before the mastery pass: every result bumps
      its card's total, and its correct count when it was right. */
  function Tally(rs: seq<Result>): (m: map<int, Detail>)
    ensures m.Keys == IdsOf(rs)
    ensures forall id :: id in m ==>
      m[id].total == CountId(rs, id) && m[id].correct == CountIdCorrect(rs, id) && m[id].mastery == 0.0
  {
    if rs == [] then map[]
    else
      var m := Tally(rs[..|rs| - 1]);
      var r := rs[|rs| - 1];
      IdsOfInit(rs);
      CountIdAbsentIfNew(rs[..|rs| - 1], r.flashcardId, m);
      var d := if r.flashcardId in m then m[r.flashcardId] else Detail(0, 0, 0.0);
      m[r.flashcardId := Detail(d.correct + (if r.correct then 1 else 0), d.total + 1, 0.0)]
  }

  lemma {:induction false} CountIdAbsentIfNew(rs: seq<Result>, id: int, m: map<int, Detail>)
    requires m.Keys == IdsOf(rs)
    ensures id !in m ==> CountId(rs, id) == 0 && CountIdCorrect(rs, id) == 0
  {
    if id !in m {
      CountIdAbsent(rs, id);
    }
  }

  lemma {:induction false} CountIdPositive(rs: seq<Result>, id: int)
    requires id in IdsOf(rs)
    ensures CountId(rs, id) >= 1
  {
    var init := rs[..|rs| - 1];
    IdsOfInit(rs);
    if rs[|rs| - 1].flashcardId != id {
      CountIdPositive(init, id);
    }
  }

  /** `vocabDetails`: one entry per card that has a result, holding how many
      of its results were right out of how many, and that share as its
      mastery. */
  function VocabDetails(rs: seq<Result>): (m: map<int, Detail>)
    ensures m.Keys == IdsOf(rs)
    ensures forall id :: id in m ==>
      && m[id].total == CountId(rs, id) >= 1
      && m[id].correct == CountIdCorrect(rs, id) <= m[id].total
      && m[id].mastery == Percent(m[id].correct, m[id].total)
      && 0.0 <= m[id].mastery <= 100.0
  {
    var t := Tally(rs);
    forall id | id in t ensures CountId(rs, id) >= 1 {
      CountIdPositive(rs, id);
    }
    map id | id in t :: Detail(t[id].correct, t[id].total, Percent(t[id].correct, t[id].total))
  }

  /** The cards with a result, each once, in first-result order. */
  function DistinctIds(rs: seq<Result>): (ids: seq<int>)
    ensures forall i, j :: 0 <= i < j < |ids| ==> ids[i] != ids[j]
    ensures forall id :: id in ids <==> id in IdsOf(rs)
  {
    if rs == [] then []
    else
      var ids := DistinctIds(rs[..|rs| - 1]);
      var id := rs[|rs| - 1].flashcardId;
      IdsOfInit(rs);
      if id in ids then ids else ids + [id]
  }

  function SumTotals(m: map<int, Detail>, ids: seq<int>): nat
    requires forall id :: id in ids ==> id in m
  {
    if ids == [] then 0
    else
      var last := ids[|ids| - 1];
      assert last in ids;
      SumTotals(m, ids[..|ids| - 1]) + m[last].total
  }

  function SumCounts(rs: seq<Result>, ids: seq<int>): nat
  {
    if ids == [] then 0 else SumCounts(rs, ids[..|ids| - 1]) + CountId(rs, ids[|ids| - 1])
  }

  lemma {:induction false} SumCountsAppend(rs: seq<Result>, r: Result, ids: seq<int>)
    requires forall i, j :: 0 <= i < j < |ids| ==> ids[i] != ids[j]
    ensures SumCounts(rs + [r], ids) == SumCounts(rs, ids) + (if r.flashcardId in ids then 1 else 0)
  {
    if ids != [] {
      var init := ids[..|ids| - 1];
      SumCountsAppend(rs, r, init);
      assert (rs + [r])[..|rs + [r]| - 1] == rs;
      assert ids == init + [ids[|ids| - 1]];
    }
  }

  lemma {:induction false} CountIdAbsent(rs: seq<Result>, id: int)
    requires id !in IdsOf(rs)
    ensures CountId(rs, id) == 0
  {
    if rs != [] {
      IdsOfInit(rs);
      CountIdAbsent(rs[..|rs| - 1], id);
    }
  }

  lemma {:induction false} SumCountsAll(rs: seq<Result>)
    ensures SumCounts(rs, DistinctIds(rs)) == |rs|
  {
    if rs != [] {
      var init := rs[..|rs| - 1];
      var r := rs[|rs| - 1];
      var ids := DistinctIds(init);
      SumCountsAll(init);
      assert rs == init + [r];
      SumCountsAppend(init, r, ids);
      IdsOfInit(rs);
      if r.flashcardId !in ids {
        CountIdAbsent(init, r.flashcardId);
        assert DistinctIds(rs)[..|DistinctIds(rs)| - 1] == ids;
      }
    }
  }

  lemma {:induction false} SumTotalsIsCounts(rs: seq<Result>, ids: seq<int>)
    requires forall id :: id in ids ==> id in IdsOf(rs)
    ensures forall id :: id in ids ==> id in VocabDetails(rs)
    ensures SumTotals(VocabDetails(rs), ids) == SumCounts(rs, ids)
  {
    if ids != [] {
      SumTotalsIsCounts(rs, ids[..|ids| - 1]);
    }
  }

  /** Every result lands in exactly one card's record: the per-card totals
      add up to the number of questions. */
  lemma {:induction false} DetailsSumToTotal(rs: seq<Result>)
    ensures forall id :: id in DistinctIds(rs) ==> id in VocabDetails(rs)
    ensures SumTotals(VocabDetails(rs), DistinctIds(rs)) == |rs|
  {
    SumTotalsIsCounts(rs, DistinctIds(rs));
    SumCountsAll(rs);
  }

  /** `saveTestResults`: the overall share of right answers across every
      phase, the raw answers and the per-card records. */
  function Save(kind: TestType, results: seq<seq<Result>>): (s: Saved)
    ensures s.testType == kind && s.answers == results
    ensures s.totalQuestions == |Flatten(results)|
    ensures s.correctAnswers == Count(Flatten(results), IsCorrect) <= s.totalQuestions
    ensures s.score == Overall(Scores(results))
    ensures 0.0 <= s.score <= 100.0
    ensures s.vocabDetails == VocabDetails(Flatten(results))
  {
    var all := Flatten(results);
    var c := Count(all, IsCorrect);
    OverallAgrees(results);
    Saved(kind, Percent(c, |all|), |all|, c, results, VocabDetails(all))
  }
}
