/**
 Path texts and their components: splitting, rendering and lexical normalisation
 (the specification level of `vfs::Path`).
 */
module PathText {
  import opened Basics
  import opened StringView

  const SEPARATOR: char := '/'
  const MAX_PATH_SIZE: nat := 1024
  const MAX_COMPONENTS: nat := 64

  /** A component: not empty, no separator inside. */
  predicate IsComponent(c: Text) { c != [] && SEPARATOR !in c }

  ghost predicate AreComponents(cs: seq<Text>) { forall i :: 0 <= i < |cs| ==> IsComponent(cs[i]) }

  function FirstSeparator(t: Text): (k: nat)
    ensures k <= |t| && SEPARATOR !in t[..k] && (k < |t| ==> t[k] == SEPARATOR)
  {
    if t == [] || t[0] == SEPARATOR then 0
    else
      var k := 1 + FirstSeparator(t[1..]);
      assert t[..k] == [t[0]] + t[1..][..k - 1];
      k
  }

  /** The non-empty pieces between separators. */
  function Split(t: Text): (cs: seq<Text>)
    decreases |t|
  {
    if t == [] then []
    else
      var k := FirstSeparator(t);
      (if k > 0 then [t[..k]] else []) + (if k < |t| then Split(t[k + 1..]) else [])
  }

  predicate IsAbsolute(t: Text) { t != [] && t[0] == SEPARATOR }

  function Join(cs: seq<Text>): Text {
    if cs == [] then [] else if |cs| == 1 then cs[0] else Join(cs[..|cs| - 1]) + [SEPARATOR] + cs[|cs| - 1]
  }

  /** The text `RebuildPath` lays out. */
  function Render(absolute: bool, cs: seq<Text>): Text {
    (if absolute then [SEPARATOR] else []) + Join(cs)
  }

  // ---------------------------------------------------------------------------------------------
  // Splitting a rendered path gives the components back
  // ---------------------------------------------------------------------------------------------

  lemma FirstSeparatorIs(t: Text, k: nat)
    requires k <= |t| && SEPARATOR !in t[..k] && (k < |t| ==> t[k] == SEPARATOR)
    ensures FirstSeparator(t) == k
  {
  }

  lemma SplitUnfold(t: Text, k: nat)
    requires k <= |t| && SEPARATOR !in t[..k] && (k < |t| ==> t[k] == SEPARATOR)
    ensures Split(t) == (if k > 0 then [t[..k]] else []) + (if k < |t| then Split(t[k + 1..]) else [])
  {
    FirstSeparatorIs(t, k);
  }

  lemma {:induction false} SplitConcat(t: Text, u: Text)
    requires t == [] || u == [] || t[|t| - 1] == SEPARATOR || u[0] == SEPARATOR
    ensures Split(t + u) == Split(t) + Split(u)
    decreases |t|
  {
    hide Split;
    var k := FirstSeparator(t);
    SplitUnfold([], 0);
    SplitUnfold(t, k);
    if t == [] {
      assert t + u == u;
    } else if u == [] {
      assert t + u == t;
    } else if k < |t| {
      assert (t + u)[..k] == t[..k] && (t + u)[k + 1..] == t[k + 1..] + u;
      SplitUnfold(t + u, k);
      SplitConcat(t[k + 1..], u);
    } else {
      assert t[..k] == t && t[|t| - 1] in t;
      SplitWord(t, u);
    }
  }

  /** A text without separators is a component of its own when a separator follows. */
  lemma SplitWord(t: Text, u: Text)
    requires IsComponent(t) && u != [] && u[0] == SEPARATOR
    ensures Split(t + u) == Split(t) + Split(u)
  {
    hide Split;
    var k := |t|;
    assert (t + u)[..k] == t && (t + u)[k + 1..] == u[1..] && (t + u)[k] == SEPARATOR;
    SplitUnfold(t + u, k);
    SplitComponent(t);
    assert u == [SEPARATOR] + u[1..];
    SplitSeparator(u[1..]);
  }

  lemma SplitSeparator(t: Text)
    ensures Split([SEPARATOR] + t) == Split(t)
  {
    hide Split;
    assert ([SEPARATOR] + t)[1..] == t;
    SplitUnfold([SEPARATOR] + t, 0);
  }

  lemma SplitComponent(c: Text)
    requires IsComponent(c)
    ensures Split(c) == [c]
  {
    assert c[..|c|] == c;
    FirstSeparatorIs(c, |c|);
  }

  lemma {:induction false} SplitJoin(cs: seq<Text>)
    requires AreComponents(cs)
    ensures Split(Join(cs)) == cs
    ensures cs != [] ==> Join(cs) != [] && Join(cs)[0] != SEPARATOR
  {
    if |cs| == 1 {
      SplitComponent(cs[0]);
    } else if |cs| > 1 {
      var n := |cs| - 1;
      SplitJoin(cs[..n]);
      SplitComponent(cs[n]);
      SplitConcat(Join(cs[..n]), [SEPARATOR] + cs[n]);
      SplitSeparator(cs[n]);
      assert Join(cs) == Join(cs[..n]) + ([SEPARATOR] + cs[n]);
      assert cs == cs[..n] + [cs[n]];
    }
  }

  lemma SplitRender(absolute: bool, cs: seq<Text>)
    requires AreComponents(cs)
    ensures Split(Render(absolute, cs)) == cs && IsAbsolute(Render(absolute, cs)) == absolute
  {
    SplitJoin(cs);
    if absolute {
      SplitSeparator(Join(cs));
    } else {
      assert Render(absolute, cs) == Join(cs);
    }
  }

  lemma {:induction false} SplitGivesComponents(t: Text)
    ensures AreComponents(Split(t))
    decreases |t|
  {
    var k := FirstSeparator(t);
    if k < |t| { SplitGivesComponents(t[k + 1..]); }
  }

  lemma {:induction false} JoinLength(c: Text, cs: seq<Text>)
    ensures |Join([c] + cs)| == |c| + if cs == [] then 0 else 1 + |Join(cs)|
  {
    if |cs| > 0 {
      var n := |cs| - 1;
      JoinLength(c, cs[..n]);
      assert ([c] + cs)[..|cs|] == [c] + cs[..n];
    } else {
      assert [c] + cs == [c];
    }
  }

  lemma {:induction false} SplitShrinks(t: Text)
    ensures |Join(Split(t))| <= |t|
    decreases |t|
  {
    if t != [] {
      var k := FirstSeparator(t);
      if k < |t| {
        var rest := Split(t[k + 1..]);
        SplitShrinks(t[k + 1..]);
        if k > 0 {
          JoinLength(t[..k], rest);
        } else {
          assert Split(t) == rest;
        }
      } else {
        assert Split(t) == [t[..k]];
      }
    }
  }

  lemma RenderSplitShrinks(t: Text)
    ensures |Render(IsAbsolute(t), Split(t))| <= |t|
  {
    hide Split, Join;
    if IsAbsolute(t) {
      assert t == [SEPARATOR] + t[1..];
      SplitSeparator(t[1..]);
      SplitShrinks(t[1..]);
    } else {
      SplitShrinks(t);
    }
  }

  /** Any text renders, once split, to a text of the same components that is not longer. */
  lemma SplitIsCanonical(t: Text)
    ensures AreComponents(Split(t))
    ensures var u := Render(IsAbsolute(t), Split(t));
            Split(u) == Split(t) && IsAbsolute(u) == IsAbsolute(t) && |u| <= |t|
  {
    hide Split, Join, AreComponents;
    SplitGivesComponents(t);
    SplitRender(IsAbsolute(t), Split(t));
    RenderSplitShrinks(t);
  }

  /** What is left of a text after the buffer has cut it. */
  function Clip(t: Text): Text { t[..Min(|t|, MAX_PATH_SIZE)] }

  /**
   Parsing what `RebuildPath` wrote gives back the same components and the same absolute flag
   exactly when the whole text fits the buffer.
   */
  lemma ReparseIffFits(absolute: bool, cs: seq<Text>)
    requires AreComponents(cs)
    ensures (Split(Clip(Render(absolute, cs))) == cs && IsAbsolute(Clip(Render(absolute, cs))) == absolute)
            <==> |Render(absolute, cs)| <= MAX_PATH_SIZE
  {
    hide Split, Join;
    var t := Render(absolute, cs);
    SplitRender(absolute, cs);
    if |t| <= MAX_PATH_SIZE {
      assert Clip(t) == t;
    } else {
      RenderSplitShrinks(Clip(t));
    }
  }

  // ---------------------------------------------------------------------------------------------
  // Walking and normalising
  // ---------------------------------------------------------------------------------------------

  const CURRENT_DIR: Text := "."
  const PARENT_DIR: Text := ".."

  /** A directory, as the names from the root down to it. */
  type Stack = seq<Text>

  function WalkOne(st: Stack, c: Text): Stack {
    if c == CURRENT_DIR then st
    else if c == PARENT_DIR then (if st == [] then [] else st[..|st| - 1])
    else st + [c]
  }

  function Walk(st: Stack, cs: seq<Text>): Stack {
    if cs == [] then st else WalkOne(Walk(st, cs[..|cs| - 1]), cs[|cs| - 1])
  }

  /** One step of `GetWeaklyCanonical`. */
  function NormalizeOne(absolute: bool, acc: seq<Text>, c: Text): seq<Text> {
    if c == CURRENT_DIR then acc
    else if c == PARENT_DIR then
      if acc != [] && acc[|acc| - 1] != PARENT_DIR then acc[..|acc| - 1]
      else if !absolute then acc + [c]
      else acc
    else acc + [c]
  }

  function Normalize(absolute: bool, cs: seq<Text>): seq<Text> {
    if cs == [] then [] else NormalizeOne(absolute, Normalize(absolute, cs[..|cs| - 1]), cs[|cs| - 1])
  }

  /** No ".", and ".." only as a leading run of a relative path. */
  ghost predicate IsNormal(absolute: bool, cs: seq<Text>) {
    && (forall i :: 0 <= i < |cs| ==> cs[i] != CURRENT_DIR)
    && (forall i :: 0 <= i < |cs| && cs[i] == PARENT_DIR ==>
                      !absolute && forall j :: 0 <= j < i ==> cs[j] == PARENT_DIR)
  }

  lemma {:induction false} NormalizeIsNormal(absolute: bool, cs: seq<Text>)
    ensures IsNormal(absolute, Normalize(absolute, cs))
    ensures |Normalize(absolute, cs)| <= |cs|
    ensures AreComponents(cs) ==> AreComponents(Normalize(absolute, cs))
  {
    if cs != [] { NormalizeIsNormal(absolute, cs[..|cs| - 1]); }
  }

  /** A normal path is its own normal form. */
  lemma {:induction false} NormalIsFixed(absolute: bool, cs: seq<Text>)
    requires IsNormal(absolute, cs)
    ensures Normalize(absolute, cs) == cs
  {
    hide IsNormal, NormalizeOne;
    if cs != [] {
      var n := |cs| - 1;
      NormalPrefix(absolute, cs, n);
      NormalIsFixed(absolute, cs[..n]);
      assert cs == cs[..n] + [cs[n]];
    }
  }

  /** The last component of a normal path is simply appended. */
  lemma NormalPrefix(absolute: bool, cs: seq<Text>, n: nat)
    requires |cs| == n + 1 && IsNormal(absolute, cs)
    ensures IsNormal(absolute, cs[..n]) && NormalizeOne(absolute, cs[..n], cs[n]) == cs[..n] + [cs[n]]
  {
    assert cs[n] == PARENT_DIR && n > 0 ==> cs[n - 1] == PARENT_DIR;
  }

  lemma NormalizeIdempotent(absolute: bool, cs: seq<Text>)
    ensures Normalize(absolute, Normalize(absolute, cs)) == Normalize(absolute, cs)
  {
    NormalizeIsNormal(absolute, cs);
    NormalIsFixed(absolute, Normalize(absolute, cs));
  }

  /** Normalising keeps the meaning: from any directory (from the root, for an absolute path). */
  lemma {:induction false} NormalizeKeepsWalk(absolute: bool, cs: seq<Text>, st: Stack)
    requires absolute ==> st == []
    ensures Walk(st, Normalize(absolute, cs)) == Walk(st, cs)
  {
    hide Walk, WalkOne, NormalizeOne;
    if cs != [] {
      var n := |cs| - 1;
      var acc := Normalize(absolute, cs[..n]);
      NormalizeKeepsWalk(absolute, cs[..n], st);
      NormalizeIsNormal(absolute, cs[..n]);
      NormalizeOneKeepsWalk(absolute, acc, cs[n], st);
      assert cs == cs[..n] + [cs[n]];
      WalkAppend(st, cs[..n], cs[n]);
    }
  }

  lemma NormalizeOneKeepsWalk(absolute: bool, acc: seq<Text>, c: Text, st: Stack)
    requires absolute ==> st == []
    requires IsNormal(absolute, acc)
    ensures Walk(st, NormalizeOne(absolute, acc, c)) == WalkOne(Walk(st, acc), c)
  {
    hide Walk;
    WalkAppend(st, acc, c);
    if acc != [] {
      var m := |acc| - 1;
      WalkAppend(st, acc[..m], acc[m]);
      assert acc == acc[..m] + [acc[m]];
    } else {
      assert Walk(st, acc) == st by { WalkNothing(st); }
    }
  }

  lemma WalkNothing(st: Stack)
    ensures Walk(st, []) == st
  {
  }

  lemma WalkAppend(st: Stack, cs: seq<Text>, c: Text)
    ensures Walk(st, cs + [c]) == WalkOne(Walk(st, cs), c)
  {
    assert (cs + [c])[..|cs|] == cs;
  }

  lemma {:induction false} WalkConcat(st: Stack, cs: seq<Text>, ds: seq<Text>)
    ensures Walk(st, cs + ds) == Walk(Walk(st, cs), ds)
    decreases |ds|
  {
    if ds == [] {
      assert cs + ds == cs;
    } else {
      var n := |ds| - 1;
      WalkConcat(st, cs, ds[..n]);
      assert (cs + ds)[..|cs| + n] == cs + ds[..n];
    }
  }
}
