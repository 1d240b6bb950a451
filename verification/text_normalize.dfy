/** `normalizeText` of the free-text drill modes: replace every 'ß' by "ss",
    `trim()`, then `replace(/\s+/g, ' ')`. It does not fold letter case.
    Writing practice and fill-the-gaps use the same definition. */
module TextNormalize {

  /** The characters JavaScript's `\s` and `String.prototype.trim` treat as
      white space (WhiteSpace and LineTerminator of ECMAScript). */
  predicate IsSpace(c: char) {
    || c == ' ' || c == '\t' || c == '\n' || c == '\r'
    || c == '\U{000B}' || c == '\U{000C}' || c == '\U{00A0}' || c == '\U{FEFF}'
    || c == '\U{1680}' || ('\U{2000}' <= c <= '\U{200A}')
    || c == '\U{2028}' || c == '\U{2029}' || c == '\U{202F}' || c == '\U{205F}' || c == '\U{3000}'
  }

  /** `replace(/ß/g, 'ss')` */
  function ExpandEszett(t: string): string {
    if t == [] then []
    else (if t[0] == 'ß' then "ss" else [t[0]]) + ExpandEszett(t[1..])
  }

  /** Leading white space removed (`trimStart`). */
  function DropSpaces(t: string): string {
    if t == [] || !IsSpace(t[0]) then t else DropSpaces(t[1..])
  }

  /** Trailing white space removed (`trimEnd`). */
  function TrimEnd(t: string): string {
    if t == [] || !IsSpace(t[|t| - 1]) then t else TrimEnd(t[..|t| - 1])
  }

  function Trim(t: string): string {
    TrimEnd(DropSpaces(t))
  }

  /** `replace(/\s+/g, ' ')`: every maximal run of white space becomes one ' '. */
  function Collapse(t: string): string
    decreases |t|
  {
    if t == [] then []
    else if IsSpace(t[0]) then
      DropSpacesShorter(t);
      " " + Collapse(DropSpaces(t))
    else [t[0]] + Collapse(t[1..])
  }

  function Normalize(t: string): string {
    Collapse(Trim(ExpandEszett(t)))
  }

  /** The text with all white space deleted: what normalization must not change. */
  function NonSpace(s: string): string {
    if s == [] then [] else (if IsSpace(s[0]) then [] else [s[0]]) + NonSpace(s[1..])
  }

  predicate NoEszett(s: string) {
    forall i :: 0 <= i < |s| ==> s[i] != 'ß'
  }

  /** Every white-space character is a plain ' ' followed by a non-space. */
  predicate SingleSpaced(s: string) {
    forall i :: 0 <= i < |s| && IsSpace(s[i]) ==> s[i] == ' ' && i + 1 < |s| && !IsSpace(s[i + 1])
  }

  /** The shape of every `normalizeText` result. */
  predicate Normalized(s: string) {
    && NoEszett(s)
    && (|s| > 0 ==> !IsSpace(s[0]))
    && SingleSpaced(s)
  }

  // ---- helper facts -------------------------------------------------------

  lemma {:induction false} DropSpacesShorter(t: string)
    ensures |DropSpaces(t)| <= |t|
    ensures DropSpaces(t) == t[|t| - |DropSpaces(t)|..]
    ensures |t| > 0 && IsSpace(t[0]) ==> |DropSpaces(t)| < |t|
    ensures DropSpaces(t) == [] || !IsSpace(DropSpaces(t)[0])
    ensures NonSpace(DropSpaces(t)) == NonSpace(t)
    ensures |t| > 0 && !IsSpace(t[|t| - 1]) ==>
      |DropSpaces(t)| > 0 && DropSpaces(t)[|DropSpaces(t)| - 1] == t[|t| - 1]
  {
    if t != [] && IsSpace(t[0]) {
      DropSpacesShorter(t[1..]);
      assert t[1..][|t[1..]| - |DropSpaces(t[1..])|..] == t[|t| - |DropSpaces(t)|..];
    }
  }

  lemma {:induction false} NonSpaceAppend(a: string, b: string)
    ensures NonSpace(a + b) == NonSpace(a) + NonSpace(b)
  {
    if a != [] {
      assert (a + b)[1..] == a[1..] + b;
      NonSpaceAppend(a[1..], b);
    } else {
      assert a + b == b;
    }
  }

  lemma {:induction false} TrimEndFacts(t: string)
    ensures |TrimEnd(t)| <= |t| && TrimEnd(t) == t[..|TrimEnd(t)|]
    ensures TrimEnd(t) == [] || !IsSpace(TrimEnd(t)[|TrimEnd(t)| - 1])
    ensures NonSpace(TrimEnd(t)) == NonSpace(t)
  {
    if t != [] && IsSpace(t[|t| - 1]) {
      var u := t[..|t| - 1];
      TrimEndFacts(u);
      assert u[..|TrimEnd(u)|] == t[..|TrimEnd(t)|];
      assert t == u + [t[|t| - 1]];
      NonSpaceAppend(u, [t[|t| - 1]]);
      assert NonSpace([t[|t| - 1]]) == [];
    }
  }

  lemma {:induction false} TrimFacts(t: string)
    ensures NoEszett(t) ==> NoEszett(Trim(t))
    ensures Trim(t) == [] || (!IsSpace(Trim(t)[0]) && !IsSpace(Trim(t)[|Trim(t)| - 1]))
    ensures NonSpace(Trim(t)) == NonSpace(t)
  {
    DropSpacesShorter(t);
    TrimEndFacts(DropSpaces(t));
  }

  lemma {:induction false} DropSpacesPrefix(t: string)
    ensures forall k :: 0 <= k < |t| - |DropSpaces(t)| ==> IsSpace(t[k])
  {
    if t != [] && IsSpace(t[0]) {
      DropSpacesPrefix(t[1..]);
      forall k | 1 <= k < |t| - |DropSpaces(t)| ensures IsSpace(t[k]) {
        assert t[k] == t[1..][k - 1];
      }
    }
  }

  lemma {:induction false} TrimEndSuffix(t: string)
    ensures forall k :: |TrimEnd(t)| <= k < |t| ==> IsSpace(t[k])
  {
    if t != [] && IsSpace(t[|t| - 1]) {
      var u := t[..|t| - 1];
      TrimEndSuffix(u);
      TrimEndFacts(u);
      forall k | |TrimEnd(t)| <= k < |t| - 1 ensures IsSpace(t[k]) {
        assert t[k] == u[k];
      }
    }
  }

  /** `String.prototype.trim` leaves a slice of its input: what lies
      between the leading and the trailing white space. */
  lemma {:induction false} TrimSlice(t: string)
    ensures var i, r := |t| - |DropSpaces(t)|, Trim(t); 0 <= i && i + |r| <= |t| && r == t[i..i + |r|]
  {
    var a := DropSpaces(t);
    DropSpacesShorter(t);
    TrimEndFacts(a);
    SliceOfSuffix(t, a, Trim(t));
  }

  lemma SliceOfSuffix<T>(t: seq<T>, a: seq<T>, b: seq<T>)
    requires |a| <= |t| && a == t[|t| - |a|..]
    requires |b| <= |a| && b == a[..|b|]
    ensures var i := |t| - |a|; i + |b| <= |t| && b == t[i..i + |b|]
  {
  }

  /** The trimmed text is empty exactly for a blank input, and otherwise
      starts and ends with a non-space. */
  lemma {:induction false} TrimBlank(t: string)
    ensures Trim(t) == [] <==> forall k :: 0 <= k < |t| ==> IsSpace(t[k])
    ensures Trim(t) != [] ==> !IsSpace(Trim(t)[0]) && !IsSpace(Trim(t)[|Trim(t)| - 1])
  {
    var a := DropSpaces(t);
    var i := |t| - |a|;
    DropSpacesShorter(t);
    DropSpacesPrefix(t);
    TrimEndFacts(a);
    TrimEndSuffix(a);
    TrimSlice(t);
    var r := Trim(t);
    if r != [] {
      assert r[|r| - 1] == t[i + |r| - 1];
      assert r[0] == a[0];
    }
  }

  lemma {:induction false} ExpandEszettNoEszett(t: string)
    ensures NoEszett(ExpandEszett(t))
  {
    if t != [] {
      ExpandEszettNoEszett(t[1..]);
    }
  }

  lemma CollapseHead(t: string)
    ensures |t| > 0 ==> |Collapse(t)| > 0 && (IsSpace(Collapse(t)[0]) <==> IsSpace(t[0]))
  {
  }

  lemma {:induction false} CollapseLast(t: string)
    requires |t| > 0 && !IsSpace(t[|t| - 1])
    ensures |Collapse(t)| > 0 && !IsSpace(Collapse(t)[|Collapse(t)| - 1])
    decreases |t|
  {
    if IsSpace(t[0]) {
      DropSpacesShorter(t);
      CollapseLast(DropSpaces(t));
    } else if |t| > 1 {
      CollapseLast(t[1..]);
    }
  }

  /** On an input that does not end in white space, `Collapse` leaves only
      single ' ' separators. */
  lemma {:induction false} CollapseSingleSpaced(t: string)
    requires t == [] || !IsSpace(t[|t| - 1])
    ensures SingleSpaced(Collapse(t))
    decreases |t|
  {
    if t == [] {
    } else if IsSpace(t[0]) {
      var d := DropSpaces(t);
      DropSpacesShorter(t);
      CollapseSingleSpaced(d);
      CollapseHead(d);
      var c := Collapse(t);
      assert c == " " + Collapse(d);
      forall i | 0 <= i < |c| && IsSpace(c[i])
        ensures c[i] == ' ' && i + 1 < |c| && !IsSpace(c[i + 1])
      {
        if i > 0 {
          assert c[i] == Collapse(d)[i - 1];
        }
      }
    } else {
      var rest := t[1..];
      CollapseSingleSpaced(rest);
      var c := Collapse(t);
      assert c == [t[0]] + Collapse(rest);
      forall i | 0 <= i < |c| && IsSpace(c[i])
        ensures c[i] == ' ' && i + 1 < |c| && !IsSpace(c[i + 1])
      {
        assert c[i] == Collapse(rest)[i - 1];
      }
    }
  }

  lemma {:induction false} CollapseNoEszett(t: string)
    requires NoEszett(t)
    ensures NoEszett(Collapse(t))
    decreases |t|
  {
    if t == [] {
    } else if IsSpace(t[0]) {
      DropSpacesShorter(t);
      var d := DropSpaces(t);
      assert NoEszett(d);
      CollapseNoEszett(d);
      assert Collapse(t) == " " + Collapse(d);
    } else {
      assert NoEszett(t[1..]);
      CollapseNoEszett(t[1..]);
      assert Collapse(t) == [t[0]] + Collapse(t[1..]);
    }
  }

  lemma {:induction false} CollapseNonSpace(t: string)
    ensures NonSpace(Collapse(t)) == NonSpace(t)
    decreases |t|
  {
    if t == [] {
    } else if IsSpace(t[0]) {
      DropSpacesShorter(t);
      var d := DropSpaces(t);
      CollapseNonSpace(d);
      assert Collapse(t) == " " + Collapse(d);
      assert NonSpace(Collapse(t)) == NonSpace(Collapse(d));
    } else {
      CollapseNonSpace(t[1..]);
      assert Collapse(t) == [t[0]] + Collapse(t[1..]);
    }
  }

  // ---- the properties of normalizeText ------------------------------------

  /** The result has no 'ß', no leading or trailing white space, and every
      white-space run is a single ' '. */
  lemma {:induction false} NormalizeShape(t: string)
    ensures Normalized(Normalize(t))
    ensures Normalize(t) == [] || !IsSpace(Normalize(t)[|Normalize(t)| - 1])
  {
    var e := ExpandEszett(t);
    ExpandEszettNoEszett(t);
    TrimFacts(e);
    CollapseHead(Trim(e));
    CollapseSingleSpaced(Trim(e));
    CollapseNoEszett(Trim(e));
    if Trim(e) != [] {
      CollapseLast(Trim(e));
    }
  }

  /** Only white space changes: the other characters, letter case included,
      are those of the input after the 'ß' expansion, in order. */
  lemma {:induction false} NormalizeKeepsText(t: string)
    ensures NonSpace(Normalize(t)) == NonSpace(ExpandEszett(t))
  {
    TrimFacts(ExpandEszett(t));
    CollapseNonSpace(Trim(ExpandEszett(t)));
  }

  lemma {:induction false} CollapseFixpoint(s: string)
    requires SingleSpaced(s)
    ensures Collapse(s) == s
  {
    if s != [] {
      if IsSpace(s[0]) {
        assert s[0] == ' ' && |s| > 1 && !IsSpace(s[1]);
        assert DropSpaces(s[1..]) == s[1..];
        assert DropSpaces(s) == s[1..];
        assert SingleSpaced(s[1..]) by {
          forall i | 0 <= i < |s[1..]| && IsSpace(s[1..][i])
            ensures s[1..][i] == ' ' && i + 1 < |s[1..]| && !IsSpace(s[1..][i + 1])
          {
            assert s[1..][i] == s[i + 1];
          }
        }
        CollapseFixpoint(s[1..]);
        assert s == [' '] + s[1..];
      } else {
        assert SingleSpaced(s[1..]) by {
          forall i | 0 <= i < |s[1..]| && IsSpace(s[1..][i])
            ensures s[1..][i] == ' ' && i + 1 < |s[1..]| && !IsSpace(s[1..][i + 1])
          {
            assert s[1..][i] == s[i + 1];
          }
        }
        CollapseFixpoint(s[1..]);
        assert s == [s[0]] + s[1..];
      }
    }
  }

  lemma {:induction false} ExpandEszettFixpoint(s: string)
    requires NoEszett(s)
    ensures ExpandEszett(s) == s
  {
    if s != [] {
      assert NoEszett(s[1..]);
      ExpandEszettFixpoint(s[1..]);
      assert s == [s[0]] + s[1..];
    }
  }

  /** A normalized text is left unchanged by `normalizeText`. */
  lemma {:induction false} NormalizedFixpoint(s: string)
    requires Normalized(s)
    ensures Normalize(s) == s
  {
    ExpandEszettFixpoint(s);
    assert DropSpaces(s) == s;
    assert TrimEnd(s) == s;
    CollapseFixpoint(s);
  }

  /** `normalizeText` is idempotent. */
  lemma {:induction false} NormalizeIdempotent(t: string)
    ensures Normalize(Normalize(t)) == Normalize(t)
  {
    NormalizeShape(t);
    NormalizedFixpoint(Normalize(t));
  }
}
