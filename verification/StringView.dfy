/**
 Knuth-Morris-Pratt search of `basic_string_view::find` and its prefix table.
 */
module StringView {

  type Text = seq<char>

  /** `npos` is the absence of a position. */
  datatype Position = At(index: nat) | Npos

  const MAX_PREFIX_TABLE: nat := 1024

  predicate MatchAt(s: Text, v: Text, p: nat) { p + |v| <= |s| && s[p..p + |v|] == v }

  // ---------------------------------------------------------------------------------------------
  // Borders
  // ---------------------------------------------------------------------------------------------

  /** The first `k` characters of v[..n] are also its last `k`, and `k` is proper. */
  predicate IsBorder(v: Text, n: nat, k: nat) { k < n <= |v| && v[..k] == v[n - k..n] }

  predicate IsLongestBorder(v: Text, n: nat, k: nat) {
    IsBorder(v, n, k) && forall m :: k < m < n ==> !IsBorder(v, n, m)
  }

  predicate TableUpTo(v: Text, table: seq<nat>, n: nat) {
    n <= |table| && forall i :: 0 <= i < n ==> IsLongestBorder(v, i + 1, table[i])
  }

  lemma BorderOfBorder(v: Text, n: nat, j: nat, m: nat)
    requires IsBorder(v, n, j) && m < j
    ensures IsBorder(v, n, m) <==> IsBorder(v, j, m)
  {
    assert v[n - m..n] == v[n - j..n][j - m..];
    assert v[j - m..j] == v[..j][j - m..];
  }

  lemma BorderExtends(v: Text, n: nat, m: nat)
    requires m < n < |v|
    ensures IsBorder(v, n + 1, m + 1) <==> IsBorder(v, n, m) && v[m] == v[n]
  {
    assert v[..m + 1] == v[..m] + [v[m]];
    assert v[n - m..n + 1] == v[n - m..n] + [v[n]];
  }

  /** A border of the first `i` characters, and no longer one can be extended by character `i`. */
  ghost predicate IsCandidate(v: Text, i: nat, j: nat) {
    j < i < |v| && IsBorder(v, i, j) && forall m: nat :: j < m < i && IsBorder(v, i, m) ==> v[m] != v[i]
  }

  lemma LongestIsCandidate(v: Text, i: nat, j: nat)
    requires i < |v| && IsLongestBorder(v, i, j)
    ensures IsCandidate(v, i, j)
  {
    hide IsBorder;
    BorderIsProper(v, i, j);
  }

  lemma BorderIsProper(v: Text, n: nat, k: nat)
    requires IsBorder(v, n, k)
    ensures k < n
  {
  }

  lemma CandidateFallsBack(v: Text, i: nat, j: nat, t: nat)
    requires IsCandidate(v, i, j) && 0 < j && v[j] != v[i] && IsLongestBorder(v, j, t)
    ensures t < j && IsCandidate(v, i, t)
  {
    hide IsBorder;
    BorderIsProper(v, j, t);
    BorderOfBorder(v, i, j, t);
    forall m: nat | t < m < i && IsBorder(v, i, m) ensures v[m] != v[i] {
      if m < j { BorderOfBorder(v, i, j, m); }
    }
  }

  lemma LongestBorderNext(v: Text, i: nat, j: nat)
    requires IsCandidate(v, i, j) && (j == 0 || v[j] == v[i])
    ensures IsLongestBorder(v, i + 1, if v[j] == v[i] then j + 1 else 0)
  {
    var k := if v[j] == v[i] then j + 1 else 0;
    BorderExtends(v, i, j);
    var n := i + 1;
    forall m | k < m < n ensures !IsBorder(v, n, m) {
      BorderExtends(v, i, m - 1);
    }
  }

  /** Entry `i` of the table is the length of the longest proper border of the first i + 1 characters. */
  method ComputePrefixTable(v: Text) returns (table: seq<nat>)
    requires |v| <= MAX_PREFIX_TABLE
    ensures |table| == MAX_PREFIX_TABLE
    ensures TableUpTo(v, table, |v|)
  {
    table := seq(MAX_PREFIX_TABLE, _ => 0);
    var j: nat := 0;
    var i: nat := 1;
    assert |v| > 0 ==> IsLongestBorder(v, 1, table[0]);
    hide IsLongestBorder, IsBorder;
    while i < |v|
      invariant 1 <= i && |table| == MAX_PREFIX_TABLE
      invariant |v| > 0 ==> i <= |v| && j == table[i - 1]
      invariant |v| > 0 ==> TableUpTo(v, table, i)
    {
      var n := i - 1;
      assert IsLongestBorder(v, n + 1, table[n]);
      LongestIsCandidate(v, i, j);
      while j > 0 && v[j] != v[i]
        invariant IsCandidate(v, i, j)
        decreases j
      {
        n := j - 1;
        assert IsLongestBorder(v, n + 1, table[n]);
        CandidateFallsBack(v, i, j, table[j - 1]);
        j := table[j - 1];
      }
      LongestBorderNext(v, i, j);
      if v[j] == v[i] {
        j := j + 1;
      }
      table := table[i := j];
      i := i + 1;
    }
  }

  // ---------------------------------------------------------------------------------------------
  // Search
  // ---------------------------------------------------------------------------------------------

  /** The lowest match at or after `pos`, as ISO C++ [string.view.find] defines it. */
  ghost predicate IsFirstMatch(s: Text, v: Text, pos: nat, r: Position) {
    match r
    case At(p) => pos <= p && MatchAt(s, v, p) && forall q :: pos <= q < p ==> !MatchAt(s, v, q)
    case Npos => forall q :: pos <= q ==> !MatchAt(s, v, q)
  }

  lemma MatchCharacter(s: Text, v: Text, p: nat, k: nat)
    requires k < |v|
    ensures MatchAt(s, v, p) ==> s[p + k] == v[k]
  {
    assert MatchAt(s, v, p) ==> s[p + k] == s[p..p + |v|][k];
  }

  lemma MatchPrefix(s: Text, v: Text, p: nat, m: nat)
    requires m <= |v|
    ensures MatchAt(s, v, p) ==> s[p..p + m] == v[..m]
  {
    assert MatchAt(s, v, p) ==> s[p..p + m] == s[p..p + |v|][..m];
  }

  /** Falling back from `j` to its longest border skips no match. */
  lemma FallbackSkipsNoMatch(s: Text, v: Text, i: nat, j: nat, t: nat, p: nat)
    requires j <= i < |s| && 0 < j < |v| && s[i - j..i] == v[..j] && v[j] != s[i]
    requires IsLongestBorder(v, j, t)
    requires i - j <= p < i - t
    ensures !MatchAt(s, v, p)
  {
    var m := i - p;
    if m == j {
      MatchCharacter(s, v, p, j);
    } else {
      MatchPrefix(s, v, p, m);
      assert v[j - m..j] == s[i - j..i][j - m..] == s[p..i];
      assert !IsBorder(v, j, m);
    }
  }

  // ---------------------------------------------------------------------------------------------
  // The search loop
  // ---------------------------------------------------------------------------------------------

  /** The last `j` characters before `i` match a prefix of the pattern, and no match starts earlier. */
  ghost predicate Searching(s: Text, v: Text, pos: nat, i: nat, j: nat) {
    && pos + j <= i <= |s| && j <= |v| && s[i - j..i] == v[..j]
    && forall q :: pos <= q < i - j ==> !MatchAt(s, v, q)
  }

  lemma SearchAdvances(s: Text, v: Text, pos: nat, i: nat, j: nat)
    requires Searching(s, v, pos, i, j) && i < |s| && j < |v| && v[j] == s[i]
    ensures Searching(s, v, pos, i + 1, j + 1)
  {
    hide MatchAt;
    assert s[i - j..i + 1] == s[i - j..i] + [s[i]];
    assert v[..j + 1] == v[..j] + [v[j]];
  }

  lemma SearchFallsBack(s: Text, v: Text, pos: nat, i: nat, j: nat, t: nat)
    requires Searching(s, v, pos, i, j) && i < |s| && 0 < j < |v| && v[j] != s[i] && IsLongestBorder(v, j, t)
    ensures t < j && Searching(s, v, pos, i, t)
  {
    hide MatchAt;
    assert s[i - t..i] == s[i - j..i][j - t..];
    forall q | i - j <= q < i - t ensures !MatchAt(s, v, q) { FallbackSkipsNoMatch(s, v, i, j, t, q); }
  }

  lemma SearchSkips(s: Text, v: Text, pos: nat, i: nat)
    requires Searching(s, v, pos, i, 0) && i < |s| && v != [] && v[0] != s[i]
    ensures Searching(s, v, pos, i + 1, 0)
  {
    hide MatchAt;
    MatchCharacter(s, v, i, 0);
  }

  lemma SearchFinds(s: Text, v: Text, pos: nat, i: nat)
    requires Searching(s, v, pos, i, |v|)
    ensures |v| <= i && IsFirstMatch(s, v, pos, At(i - |v|))
  {
  }

  /** The pattern no longer fits. */
  lemma SearchEnds(s: Text, v: Text, pos: nat, j: nat)
    requires j < |v| && (pos >= |s| || Searching(s, v, pos, |s|, j))
    ensures IsFirstMatch(s, v, pos, Npos)
  {
  }

  /**
   KMP search.  For a pattern the prefix table can hold, the result is the first match of the
   standard, except for the empty pattern at the very end of the text, where the standard says
   `pos` and the code says npos.
   */
  method Find(s: Text, v: Text, pos: nat) returns (r: Position)
    requires |v| <= MAX_PREFIX_TABLE
    ensures IsFirstMatch(s, v, pos, r) <==> !(v == [] && pos == |s|)
    ensures v == [] && pos == |s| ==> r == Npos
  {
    hide IsLongestBorder, IsBorder;
    if v == [] {
      assert MatchAt(s, v, |s|);
      r := if pos < |s| then At(pos) else Npos;
      return;
    }
    hide MatchAt, IsFirstMatch;
    if pos >= |s| {
      SearchEnds(s, v, pos, 0);
      return Npos;
    }
    var table := ComputePrefixTable(v);
    var i: nat, j: nat := pos, 0;
    assert Searching(s, v, pos, i, j);
    hide Searching;
    while i < |s|
      invariant i <= |s| && j < |v| && Searching(s, v, pos, i, j)
      decreases 2 * (|s| - i) + j
    {
      if v[j] == s[i] {
        SearchAdvances(s, v, pos, i, j);
        i, j := i + 1, j + 1;
      }
      if j == |v| {
        SearchFinds(s, v, pos, i);
        return At(i - j);
      } else if i < |s| && v[j] != s[i] {
        if j != 0 {
          var t := table[j - 1];
          SearchFallsBack(s, v, pos, i, j, t);
          j := t;
        } else {
          SearchSkips(s, v, pos, i);
          i := i + 1;
        }
      }
    }
    SearchEnds(s, v, pos, j);
    return Npos;
  }
}
