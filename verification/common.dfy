/** Shared vocabulary of the study application model: optional values, the
    JavaScript array operations the drill modes rely on (`filter` by index,
    `splice` insertion), counting, and exact percentages. */
module Common {

  datatype Option<T> = None | Some(value: T)

  /** A learner's self-reported pace (`LearningSpeed`). */
  datatype Speed = Slow | Moderate | Fast

  /** A flashcard as the client receives it from the flashcard list endpoint. */
  datatype Flashcard = Flashcard(id: int, front: string, back: string, mastery: real)

  /** `arr.filter((_, i) => i !== k)`: every element except the one at `k`. */
  function RemoveAt<T>(s: seq<T>, k: nat): (r: seq<T>)
    requires k < |s|
    ensures |r| == |s| - 1
    ensures forall j :: 0 <= j < k ==> r[j] == s[j]
    ensures forall j :: k <= j < |r| ==> r[j] == s[j + 1]
    ensures multiset(r) == multiset(s) - multiset{s[k]}
  {
    assert s == s[..k] + [s[k]] + s[k + 1..];
    s[..k] + s[k + 1..]
  }

  /** `arr.splice(pos, 0, x)` on a copy: JavaScript clamps an insertion
      position past the end to the end of the array. */
  function SpliceInsert<T>(s: seq<T>, pos: nat, x: T): (r: seq<T>)
    ensures |r| == |s| + 1
    ensures var p := if pos < |s| then pos else |s|;
      && r[p] == x
      && (forall j :: 0 <= j < p ==> r[j] == s[j])
      && (forall j :: p < j < |r| ==> r[j] == s[j - 1])
    ensures multiset(r) == multiset(s) + multiset{x}
  {
    var p := if pos < |s| then pos else |s|;
    assert s == s[..p] + s[p..];
    s[..p] + [x] + s[p..]
  }

  /** `arr.filter(p).length` */
  function Count<T>(s: seq<T>, p: T -> bool): (n: nat)
    ensures n <= |s|
  {
    if s == [] then 0 else Count(s[..|s| - 1], p) + (if p(s[|s| - 1]) then 1 else 0)
  }

  lemma {:induction false} CountAppend<T>(a: seq<T>, b: seq<T>, p: T -> bool)
    ensures Count(a + b, p) == Count(a, p) + Count(b, p)
    decreases |b|
  {
    if b == [] {
      assert a + b == a;
    } else {
      assert (a + b)[..|a + b| - 1] == a + b[..|b| - 1];
      CountAppend(a, b[..|b| - 1], p);
    }
  }

  /** Every element passes exactly when all of them are counted. */
  lemma {:induction false} CountFull<T>(s: seq<T>, p: T -> bool)
    ensures Count(s, p) == |s| <==> forall x :: x in s ==> p(x)
  {
    if s != [] {
      var init := s[..|s| - 1];
      CountFull(init, p);
      assert s == init + [s[|s| - 1]];
    }
  }

  /** `arr.filter(p)` */
  function Filter<T>(s: seq<T>, p: T -> bool): (r: seq<T>)
    ensures |r| == Count(s, p)
  {
    if s == [] then [] else Filter(s[..|s| - 1], p) + (if p(s[|s| - 1]) then [s[|s| - 1]] else [])
  }

  /** The filter keeps exactly the elements that pass. */
  lemma {:induction false} FilterMembers<T>(s: seq<T>, p: T -> bool)
    ensures forall x :: x in Filter(s, p) <==> x in s && p(x)
  {
    if s != [] {
      var init, last := s[..|s| - 1], s[|s| - 1];
      FilterMembers(init, p);
      assert s == init + [last];
      forall x ensures x in s <==> x in init || x == last {
      }
    }
  }

  lemma {:induction false} FilterAppend<T>(a: seq<T>, b: seq<T>, p: T -> bool)
    ensures Filter(a + b, p) == Filter(a, p) + Filter(b, p)
    decreases |b|
  {
    if b == [] {
      assert a + b == a;
    } else {
      assert (a + b)[..|a + b| - 1] == a + b[..|b| - 1];
      FilterAppend(a, b[..|b| - 1], p);
    }
  }

  /** A filter every element passes keeps the whole sequence. */
  lemma {:induction false} FilterAll<T>(s: seq<T>, p: T -> bool)
    requires forall i :: 0 <= i < |s| ==> p(s[i])
    ensures Filter(s, p) == s
  {
    if s != [] {
      var init, last := s[..|s| - 1], s[|s| - 1];
      forall i | 0 <= i < |init| ensures p(init[i]) {
        assert init[i] == s[i];
      }
      FilterAll(init, p);
      assert p(last);
      calc {
        Filter(s, p);
        Filter(init, p) + [last];
        init + [last];
        s;
      }
    }
  }

  /** `total > 0 ? (part / total) * 100 : 0`, computed exactly. */
  function Percent(part: nat, total: nat): (r: real)
    ensures total == 0 ==> r == 0.0
    ensures total > 0 ==> r * (total as real) == (part as real) * 100.0
    ensures part <= total ==> 0.0 <= r <= 100.0
    ensures total > 0 && part <= total ==> (r == 100.0 <==> part == total)
  {
    if total == 0 then 0.0 else (part as real) / (total as real) * 100.0
  }

  /** More parts of the same whole give a larger percentage. */
  lemma {:induction false} PercentMonotone(a: nat, b: nat, total: nat)
    requires a <= b
    ensures Percent(a, total) <= Percent(b, total)
  {
    if total > 0 {
      var t := total as real;
      assert (a as real) / t <= (b as real) / t;
    }
  }

  lemma {:induction false} SubsetCard<T>(a: set<T>, b: set<T>)
    requires a <= b
    ensures |a| <= |b|
    decreases |b|
  {
    if a != {} {
      var x :| x in a;
      SubsetCard(a - {x}, b - {x});
    }
  }

  /** A subset as large as its superset is the whole of it. */
  lemma {:induction false} SubsetCardEq<T>(a: set<T>, b: set<T>)
    requires a <= b && |a| == |b|
    ensures a == b
  {
    if a != b {
      assert !(b <= a);
      var x :| x in b && x !in a;
      SubsetCard(a, b - {x});
    }
  }

  function Min(a: int, b: int): int { if a < b then a else b }
  function Max(a: int, b: int): int { if a < b then b else a }
}
