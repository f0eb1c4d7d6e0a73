/**
 The path object: a fixed character buffer and views into it, parsed and rebuilt in place
 (`vfs::Path`, and the shell's `ResolvePath`).

 A component view either points into the path's own buffer, by offset and length, or into the
 buffer of another path.  No operation changes another path's buffer while such a foreign view is
 in use, so a foreign view is represented by the text it denotes.
 */
module VfsPath {
  import opened Basics
  import opened StringView
  import opened PathText

  datatype View = Own(off: nat, len: nat) | Foreign(text: Text)

  predicate InBounds(v: View) { v.Own? ==> v.off + v.len <= MAX_PATH_SIZE }

  function ViewText(buf: Text, v: View): Text
    requires |buf| == MAX_PATH_SIZE
  {
    match v
    case Own(off, len) => if off + len <= MAX_PATH_SIZE then buf[off..off + len] else []
    case Foreign(text) => text
  }

  function Texts(buf: Text, vs: seq<View>): (ts: seq<Text>)
    requires |buf| == MAX_PATH_SIZE
    ensures |ts| == |vs|
    ensures forall i :: 0 <= i < |vs| ==> ts[i] == ViewText(buf, vs[i])
  {
    seq(|vs|, i requires 0 <= i < |vs| => ViewText(buf, vs[i]))
  }

  /** Where component `i` starts in the rendered text. */
  function Offset(absolute: bool, cs: seq<Text>, i: nat): nat
    requires i <= |cs|
  {
    |Render(absolute, cs[..i])| + if i > 0 then 1 else 0
  }

  /** No own view starts before the place its text will be moved to. */
  ghost predicate Packed(absolute: bool, cs: seq<Text>, vs: seq<View>) {
    |cs| == |vs| && forall i :: 0 <= i < |vs| && vs[i].Own? ==> Offset(absolute, cs, i) <= vs[i].off
  }

  // ---------------------------------------------------------------------------------------------
  // Rendering, one component at a time
  // ---------------------------------------------------------------------------------------------

  lemma RenderNext(absolute: bool, cs: seq<Text>, i: nat)
    requires i < |cs|
    ensures Render(absolute, cs[..i + 1]) == Render(absolute, cs[..i]) + (if i > 0 then [SEPARATOR] else []) + cs[i]
    ensures |Render(absolute, cs[..i + 1])| == Offset(absolute, cs, i) + |cs[i]|
  {
    assert cs[..i + 1][..i] == cs[..i];
    if i == 0 {
      assert cs[..1] == [cs[0]] && Join(cs[..0]) == [];
    }
  }

  lemma {:induction false} RenderPrefix(absolute: bool, cs: seq<Text>, i: nat)
    requires i <= |cs|
    ensures Render(absolute, cs[..i]) <= Render(absolute, cs)
    decreases |cs| - i
  {
    if i < |cs| {
      RenderNext(absolute, cs, i);
      RenderPrefix(absolute, cs, i + 1);
    } else {
      assert cs[..i] == cs;
    }
  }

  /** The rendered text has component `i` at its offset. */
  lemma RenderedComponent(absolute: bool, cs: seq<Text>, i: nat)
    requires i < |cs|
    ensures Offset(absolute, cs, i) + |cs[i]| <= |Render(absolute, cs)|
    ensures Render(absolute, cs)[Offset(absolute, cs, i)..Offset(absolute, cs, i) + |cs[i]|] == cs[i]
    ensures i > 0 ==> Render(absolute, cs)[Offset(absolute, cs, i) - 1] == SEPARATOR
  {
    hide Render;
    RenderNext(absolute, cs, i);
    RenderPrefix(absolute, cs, i + 1);
    var t := Render(absolute, cs);
    var u := Render(absolute, cs[..i + 1]);
    assert u == t[..|u|];
  }

  lemma OffsetNext(absolute: bool, cs: seq<Text>, i: nat)
    requires i < |cs|
    ensures Offset(absolute, cs, i + 1) == Offset(absolute, cs, i) + |cs[i]| + 1
  {
    RenderNext(absolute, cs, i);
  }

  /** Adding components at the end does not move the ones before. */
  lemma OffsetStable(absolute: bool, cs: seq<Text>, ds: seq<Text>, i: nat)
    requires i <= |cs|
    ensures Offset(absolute, cs + ds, i) == Offset(absolute, cs, i)
  {
    assert (cs + ds)[..i] == cs[..i];
  }

  // ---------------------------------------------------------------------------------------------
  // Normalising never lengthens
  // ---------------------------------------------------------------------------------------------

  lemma JoinAppend(cs: seq<Text>, c: Text)
    ensures |Join(cs + [c])| == |Join(cs)| + (if cs == [] then 0 else 1) + |c|
  {
    assert (cs + [c])[..|cs|] == cs;
  }

  lemma NormalizeOneLength(absolute: bool, acc: seq<Text>, c: Text)
    ensures |Join(NormalizeOne(absolute, acc, c))| <= |Join(acc)| + (if acc == [] then 0 else 1) + |c|
  {
    hide Join;
    JoinAppend(acc, c);
    if acc != [] {
      var m := |acc| - 1;
      JoinAppend(acc[..m], acc[m]);
      assert acc == acc[..m] + [acc[m]];
    }
  }

  lemma {:induction false} NormalizeShrinks(absolute: bool, cs: seq<Text>)
    ensures |Join(Normalize(absolute, cs))| <= |Join(cs)|
  {
    hide NormalizeOne;
    if cs != [] {
      var n := |cs| - 1;
      NormalizeShrinks(absolute, cs[..n]);
      NormalizeOneLength(absolute, Normalize(absolute, cs[..n]), cs[n]);
      assert cs == cs[..n] + [cs[n]];
      JoinAppend(cs[..n], cs[n]);
    }
  }

  /** The components `Parse` keeps. */
  function Parsed(t: Text): seq<Text> { Split(t)[..Min(|Split(t)|, MAX_COMPONENTS)] }

  // ---------------------------------------------------------------------------------------------
  // Parsing
  // ---------------------------------------------------------------------------------------------

  /** The views are exactly the components of the text in the buffer. */
  ghost predicate Describes(buf: Text, len: nat, absolute: bool, vs: seq<View>) {
    && |buf| == MAX_PATH_SIZE && len <= MAX_PATH_SIZE && |vs| <= MAX_COMPONENTS
    && OwnViews(vs)
    && AreComponents(Texts(buf, vs))
    && Packed(absolute, Texts(buf, vs), vs)
    && Texts(buf, vs) == Parsed(buf[..len]) && absolute == IsAbsolute(buf[..len])
    && |Render(absolute, Texts(buf, vs))| <= len
  }

  ghost predicate OwnViews(vs: seq<View>) { forall i :: 0 <= i < |vs| ==> vs[i].Own? && InBounds(vs[i]) }

  /** The scan has reached `pos` and the views hold the components before it. */
  ghost predicate Scanned(buf: Text, len: nat, absolute: bool, vs: seq<View>, pos: nat) {
    && |buf| == MAX_PATH_SIZE && len <= MAX_PATH_SIZE && pos <= len + 1
    && OwnViews(vs)
    && AreComponents(Texts(buf, vs))
    && Packed(absolute, Texts(buf, vs), vs)
    && Offset(absolute, Texts(buf, vs), |vs|) <= pos
    && absolute == IsAbsolute(buf[..len])
    && Split(buf[..len]) == Texts(buf, vs) + (if pos <= len then Split(buf[..len][pos..]) else [])
    && |Render(absolute, Texts(buf, vs))| <= len
  }

  lemma ScanStart(buf: Text, len: nat)
    requires |buf| == MAX_PATH_SIZE && len <= MAX_PATH_SIZE
    ensures var absolute := len > 0 && buf[0] == SEPARATOR; Scanned(buf, len, absolute, [], if absolute then 1 else 0)
  {
    hide Split;
    var text := buf[..len];
    if IsAbsolute(text) {
      assert text == [SEPARATOR] + text[1..];
      SplitSeparator(text[1..]);
    } else {
      assert text[0..] == text;
    }
  }

  lemma ScanStep(buf: Text, len: nat, absolute: bool, vs: seq<View>, pos: nat, found: Position)
    requires |buf| == MAX_PATH_SIZE && len <= MAX_PATH_SIZE
    requires Scanned(buf, len, absolute, vs, pos) && pos < len && IsFirstMatch(buf[..len], [SEPARATOR], pos, found)
    ensures var next := if found.Npos? then len else found.index;
            pos <= next <= len
            && Scanned(buf, len, absolute, if next > pos then vs + [Own(pos, next - pos)] else vs, next + 1)
  {
    hide Scanned, IsFirstMatch, Split;
    var next := if found.Npos? then len else found.index;
    NextSeparator(buf[..len], pos, found);
    if next > pos {
      ScanTake(buf, len, absolute, vs, pos, next);
    } else {
      ScanSkip(buf, len, absolute, vs, pos);
    }
  }

  lemma ScanSkip(buf: Text, len: nat, absolute: bool, vs: seq<View>, pos: nat)
    requires Scanned(buf, len, absolute, vs, pos) && pos < len
    requires Split(buf[..len][pos..]) == Split(buf[..len][pos + 1..])
    ensures Scanned(buf, len, absolute, vs, pos + 1)
  {
    hide Split, Offset, Render, AreComponents, Packed, Texts;
  }

  lemma ScanTake(buf: Text, len: nat, absolute: bool, vs: seq<View>, pos: nat, next: nat)
    requires Scanned(buf, len, absolute, vs, pos) && pos < next <= len && SEPARATOR !in buf[..len][pos..next]
    requires Split(buf[..len][pos..])
             == [buf[..len][pos..next]] + (if next + 1 <= len then Split(buf[..len][next + 1..]) else [])
    ensures Scanned(buf, len, absolute, vs + [Own(pos, next - pos)], next + 1)
  {
    hide Split, Offset, Render, AreComponents, Packed, Texts, OwnViews, ViewText;
    var c := buf[..len][pos..next];
    TextsAppend(buf, len, vs, pos, next);
    AppendParsed(absolute, Texts(buf, vs), vs, pos, c);
  }

  lemma TextsAppend(buf: Text, len: nat, vs: seq<View>, pos: nat, next: nat)
    requires |buf| == MAX_PATH_SIZE && pos < next <= len <= MAX_PATH_SIZE
    ensures Texts(buf, vs + [Own(pos, next - pos)]) == Texts(buf, vs) + [buf[..len][pos..next]]
    ensures OwnViews(vs) ==> OwnViews(vs + [Own(pos, next - pos)])
  {
    hide Texts;
    assert buf[..len][pos..next] == buf[pos..next] == ViewText(buf, Own(pos, next - pos));
  }

  lemma ScanDone(buf: Text, len: nat, absolute: bool, vs: seq<View>, pos: nat)
    requires Scanned(buf, len, absolute, vs, pos) && |vs| <= MAX_COMPONENTS && (pos >= len || |vs| == MAX_COMPONENTS)
    ensures Describes(buf, len, absolute, vs)
  {
    if pos == len { assert buf[..len][pos..] == []; }
  }

  // ---------------------------------------------------------------------------------------------
  // The in-place copy
  // ---------------------------------------------------------------------------------------------

  /**
   Forward byte copy of the first `n` characters of a view to position `dst`.  An own view may
   overlap its destination, but never starts before it, so no character is overwritten unread.
   */
  method CopyView(raw: array<char>, dst: nat, v: View, n: nat)
    requires raw.Length == MAX_PATH_SIZE && InBounds(v) && dst + n <= MAX_PATH_SIZE
    requires n <= |ViewText(raw[..], v)|
    requires v.Own? ==> dst <= v.off
    modifies raw
    ensures raw[..] == old(raw[..])[..dst] + old(ViewText(raw[..], v))[..n] + old(raw[..])[dst + n..]
  {
    ghost var orig := raw[..];
    ghost var text := ViewText(orig, v);
    var k := 0;
    while k < n
      invariant 0 <= k <= n
      invariant forall p :: 0 <= p < dst ==> raw[p] == orig[p]
      invariant forall p :: dst <= p < dst + k ==> raw[p] == text[p - dst]
      invariant forall p :: dst + k <= p < MAX_PATH_SIZE ==> raw[p] == orig[p]
    {
      raw[dst + k] := if v.Own? then raw[v.off + k] else v.text[k];
      k := k + 1;
    }
  }

  class Path {
    const raw: array<char>
    var len: nat
    var comps: seq<View>
    var absolute: bool

    ghost function Components(): seq<Text>
      requires raw.Length == MAX_PATH_SIZE
      reads this, raw
    {
      Texts(raw[..], comps)
    }

    /** Buffer, views and flag describe the same path. */
    ghost predicate Valid()
      reads this, raw
    {
      raw.Length == MAX_PATH_SIZE && Describes(raw[..], len, absolute, comps)
    }

    /** Scans the buffer for components with the library's character search. */
    method Parse()
      requires raw.Length == MAX_PATH_SIZE && len <= MAX_PATH_SIZE
      modifies this
      ensures len == old(len) && Valid()
    {
      hide Scanned, Describes;
      comps := [];
      absolute := len > 0 && raw[0] == SEPARATOR;
      var pos := if absolute then 1 else 0;
      ScanStart(raw[..], len);
      while pos < len && |comps| < MAX_COMPONENTS
        invariant len == old(len) && |comps| <= MAX_COMPONENTS && Scanned(raw[..], len, absolute, comps, pos)
        decreases len - pos
      {
        assert raw[..len] == raw[..][..len];
        var found := Find(raw[..len], [SEPARATOR], pos);
        var next := if found.Npos? then len else found.index;
        ScanStep(raw[..], len, absolute, comps, pos, found);
        if next > pos {
          comps := comps + [Own(pos, next - pos)];
        }
        pos := next + 1;
      }
      ScanDone(raw[..], len, absolute, comps, pos);
    }

    constructor (sv: Text)
      ensures Valid() && fresh(raw)
      ensures len == Min(|sv|, MAX_PATH_SIZE - 1) && raw[..len] == sv[..len]
    {
      raw := new char[MAX_PATH_SIZE](_ => '\0');
      len := Min(|sv|, MAX_PATH_SIZE - 1);
      comps, absolute := [], false;
      new;
      CopyView(raw, 0, Foreign(sv), len);
      assert raw[..len] == sv[..len];
      Parse();
    }

    /** The copy constructor: same buffer contents, parsed again. */
    constructor Copy(other: Path)
      requires other.Valid()
      ensures Valid() && fresh(raw)
      ensures len == other.len && raw[..] == other.raw[..]
      ensures Components() == other.Components() && absolute == other.absolute
    {
      raw := new char[MAX_PATH_SIZE](_ => '\0');
      len := other.len;
      comps, absolute := [], false;
      new;
      CopyView(raw, 0, Foreign(other.raw[..]), MAX_PATH_SIZE);
      assert raw[..] == other.raw[..];
      Parse();
    }

    /** The empty path. */
    constructor Empty()
      ensures Valid() && fresh(raw) && len == 0 && !absolute && comps == []
    {
      raw := new char[MAX_PATH_SIZE](_ => '\0');
      len, comps, absolute := 0, [], false;
    }

    /** What `RebuildPath` needs: nothing is moved towards the end of the buffer. */
    ghost predicate CanRebuild()
      reads this, raw
    {
      && raw.Length == MAX_PATH_SIZE && |comps| <= MAX_COMPONENTS
      && (forall i :: 0 <= i < |comps| ==> InBounds(comps[i]))
      && AreComponents(Components()) && Packed(absolute, Components(), comps)
    }

    /** Writes component `i` after what is laid out so far, with a separator before all but the first. */
    method LayComponent(i: nat, from: nat, ghost orig: Text, ghost cs: seq<Text>) returns (current: nat)
      requires raw.Length == MAX_PATH_SIZE && i < |comps| == |cs| && InBounds(comps[i])
      requires |orig| == MAX_PATH_SIZE && ViewText(orig, comps[i]) == cs[i] && Packed(absolute, cs, comps)
      requires Laid(raw[..], orig, Render(absolute, cs), from)
      requires from == Min(MAX_PATH_SIZE, |Render(absolute, cs[..i])|)
      modifies raw
      ensures Laid(raw[..], orig, Render(absolute, cs), current)
      ensures current == Min(MAX_PATH_SIZE, |Render(absolute, cs[..i + 1])|)
    {
      hide Render, ViewText, Laid;
      ghost var t, off := Render(absolute, cs), Offset(absolute, cs, i);
      RenderedComponent(absolute, cs, i);
      RenderNext(absolute, cs, i);
      current := from;
      if i > 0 && current < MAX_PATH_SIZE {
        ghost var before := raw[..];
        LaySeparator(before, orig, t, current);
        raw[current] := SEPARATOR;
        assert raw[..] == before[current := SEPARATOR];
        current := current + 1;
      }
      var n := Min(ViewSize(comps[i]), MAX_PATH_SIZE - current);
      ViewUnmoved(orig, raw[..], t, comps[i], current);
      LayText(raw[..], orig, t, current, off, cs[i], n);
      CopyView(raw, current, comps[i], n);
      current := current + n;
    }

    /**
     Writes the components, in order, into the buffer they may point into: the text written is the
     rendering of the components as they were before, cut at the buffer size.
     */
    method LayOut()
      requires CanRebuild()
      modifies this`len, raw
      ensures len <= MAX_PATH_SIZE && raw[..len] == Clip(old(Render(absolute, Components())))
    {
      hide Render, AreComponents, IsComponent, ViewText, Laid, Clip, Packed;
      ghost var orig, cs := raw[..], Components();
      ghost var t := Render(absolute, cs);
      RenderStart(absolute, cs);
      var current: nat := 0;
      if absolute {
        raw[0] := SEPARATOR;
        current := 1;
      }
      LaidStart(raw[..], orig, absolute, cs);
      var i := 0;
      while i < |comps|
        invariant 0 <= i <= |comps|
        invariant Laid(raw[..], orig, t, current) && current == Min(MAX_PATH_SIZE, |Render(absolute, cs[..i])|)
      {
        current := LayComponent(i, current, orig, cs);
        i := i + 1;
      }
      assert cs[..i] == cs;
      LaidDone(raw[..], orig, t, current);
      len := current;
      if len < MAX_PATH_SIZE {
        raw[len] := '\0';
      }
    }

    /** Points every view at the place where its text has been written. */
    method Repoint(ghost cs: seq<Text>, ghost abs: bool)
      requires raw.Length == MAX_PATH_SIZE && len <= MAX_PATH_SIZE && raw[..len] == Clip(Render(abs, cs))
      requires AreComponents(cs) && |cs| == |comps|
      requires forall i :: 0 <= i < |cs| ==> ViewSize(comps[i]) == |cs[i]|
      modifies this`comps, this`absolute
      ensures comps == Relaid(abs, cs) && absolute == abs
    {
      hide Render, Relaid, AreComponents, Offset, Clip;
      absolute := len > 0 && raw[0] == SEPARATOR;
      ClipKeepsAbsolute(abs, cs);
      var off := if absolute then 1 else 0;
      OffsetStart(abs, cs);
      ghost var vs := comps;
      var i := 0;
      while i < |comps|
        invariant absolute == abs && 0 <= i <= |comps| == |cs| && off == Offset(abs, cs, i)
        invariant forall j :: 0 <= j < |cs| ==> comps[j] == if j < i then Relaid(abs, cs)[j] else vs[j]
      {
        var size := ViewSize(comps[i]);
        OffsetNext(abs, cs, i);
        comps := comps[i := Own(off, size)];
        off := off + size + 1;
        i := i + 1;
      }
    }

    /**
     Lays the components out and re-points the views.  The result is a valid path with the same
     components exactly when the text fits the buffer.
     */
    method RebuildPath()
      requires CanRebuild()
      modifies this, raw
      ensures len <= MAX_PATH_SIZE && raw[..len] == Clip(old(Render(absolute, Components())))
      ensures absolute == old(absolute) && comps == Relaid(absolute, old(Components()))
      ensures Valid() <==> |old(Render(absolute, Components()))| <= MAX_PATH_SIZE
      ensures Valid() ==> Components() == old(Components())
    {
      hide Render, Clip, AreComponents, Packed, Relaid, Describes;
      ghost var cs, abs := Components(), absolute;
      LayOut();
      Repoint(cs, abs);
      RelaidDescribes(raw[..], len, abs, cs);
    }

    /** `operator/`: an absolute right-hand side wins; too many components leave the left-hand side. */
    method Div(other: Path) returns (result: Path)
      requires Valid() && other.Valid()
      ensures fresh(result) && fresh(result.raw) && result.raw.Length == MAX_PATH_SIZE
      ensures other.absolute ==>
                result.Valid() && result.absolute && result.Components() == other.Components()
      ensures !other.absolute && |comps| + |other.comps| > MAX_COMPONENTS ==>
                result.Valid() && result.absolute == absolute && result.Components() == Components()
      ensures !other.absolute && |comps| + |other.comps| <= MAX_COMPONENTS ==>
                && result.absolute == absolute
                && result.len <= MAX_PATH_SIZE
                && result.raw[..result.len] == Clip(Render(absolute, Components() + other.Components()))
                && (result.Valid() <==> |Render(absolute, Components() + other.Components())| <= MAX_PATH_SIZE)
                && (result.Valid() ==> result.Components() == Components() + other.Components())
    {
      hide Render, Clip, AreComponents, Packed, Relaid, Describes, Texts, ViewText;
      if other.absolute {
        result := new Path.Copy(other);
        return;
      }
      result := new Path.Copy(this);
      if |result.comps| + |other.comps| <= MAX_COMPONENTS {
        var tail := Foreigns(Texts(other.raw[..], other.comps));
        DescribesComponents(other.raw[..], other.len, other.absolute, other.comps);
        AppendForeign(result.raw[..], result.len, absolute, result.comps, tail, other.Components());
        result.comps := result.comps + tail;
        result.RebuildPath();
      }
    }

    /** `GetParent`: drops the last component; a lone or missing component gives "/" or ".". */
    method GetParent() returns (parent: Path)
      requires Valid()
      ensures fresh(parent) && fresh(parent.raw)
      ensures parent.Valid() && parent.absolute == absolute
      ensures parent.Components() == ParentOf(absolute, Components())
    {
      hide Render, AreComponents, Packed, Relaid, Describes, Texts, Split, Clip;
      if |comps| == 0 || (!absolute && |comps| == 1) {
        ParsedRootAndDot();
        var text := if absolute then [SEPARATOR] else CURRENT_DIR;
        parent := new Path(text);
        assert text[..|text|] == text;
        parent.TextGivesComponents();
      } else {
        DescribesComponents(raw[..], len, absolute, comps);
        parent := new Path.Empty();
        parent.absolute, parent.comps := absolute, Foreigns(Texts(raw[..], comps)[..|comps| - 1]);
        CopyView(parent.raw, 0, Foreign(raw[..]), Min(len, MAX_PATH_SIZE - 1));
        ForeignPrefix(parent.raw[..], absolute, Components(), |comps| - 1);
        parent.RebuildPath();
      }
    }

    /** A valid path's components are those of its text. */
    lemma TextGivesComponents()
      requires Valid()
      ensures Components() == Parsed(raw[..len]) && absolute == IsAbsolute(raw[..len])
    {
      assert raw[..len] == raw[..][..len];
    }

    /** `GetWeaklyCanonical`: removes "." and folds ".." away, one component at a time. */
    method GetWeaklyCanonical() returns (canonical: Path)
      requires Valid()
      ensures fresh(canonical) && fresh(canonical.raw)
      ensures canonical.Valid() && canonical.absolute == absolute
      ensures canonical.Components() == Normalize(absolute, Components())
    {
      hide Render, AreComponents, Packed, Relaid, Describes, Texts, ViewText, Clip, Normalize;
      ghost var cs := Components();
      DescribesComponents(raw[..], len, absolute, comps);
      canonical := new Path.Empty();
      canonical.absolute := absolute;
      NormalizeStep(absolute, cs, 0);
      var i := 0;
      while i < |comps|
        invariant 0 <= i <= |comps| && fresh(canonical) && canonical.raw.Length == MAX_PATH_SIZE
        invariant canonical.absolute == absolute && |canonical.comps| <= i
        invariant canonical.comps == Foreigns(Normalize(absolute, cs[..i]))
      {
        var component := ViewText(raw[..], comps[i]);
        NormalizeStep(absolute, cs, i);
        var n := |canonical.comps|;
        if component == CURRENT_DIR {
        } else if component == PARENT_DIR {
          if n > 0 && canonical.comps[n - 1] != Foreign(PARENT_DIR) {
            canonical.comps := canonical.comps[..n - 1];
          } else if !canonical.absolute {
            if n < MAX_COMPONENTS {
              canonical.comps := canonical.comps + [Foreign(component)];
            }
          }
        } else if n < MAX_COMPONENTS {
          canonical.comps := canonical.comps + [Foreign(component)];
        }
        i := i + 1;
      }
      assert cs[..i] == cs;
      CanonicalFits(canonical.raw[..], absolute, cs);
      canonical.RebuildPath();
    }
  }

  /** What `GetParent` leaves of the components. */
  function ParentOf(absolute: bool, cs: seq<Text>): seq<Text> {
    if |cs| == 0 || (!absolute && |cs| == 1) then (if absolute then [] else [CURRENT_DIR]) else cs[..|cs| - 1]
  }

  /** Going to the parent and then to the last name leads where the path leads. */
  lemma ParentThenName(absolute: bool, cs: seq<Text>, st: Stack)
    requires cs != []
    ensures Walk(st, ParentOf(absolute, cs) + [cs[|cs| - 1]]) == Walk(st, cs)
  {
    var n := |cs| - 1;
    WalkAppend(st, ParentOf(absolute, cs), cs[n]);
    if !absolute && n == 0 {
      WalkAppend(st, [], CURRENT_DIR);
      assert [] + [CURRENT_DIR] == [CURRENT_DIR];
    }
  }

  /** The parent of the root is the root, of a single name the root or ".", and else what is before the name. */
  lemma ParentTexts(c: Text, cs: seq<Text>)
    requires cs != []
    ensures Render(true, ParentOf(true, [])) == Render(true, ParentOf(true, [c])) == "/"
    ensures Render(false, ParentOf(false, [])) == Render(false, ParentOf(false, [c])) == "."
    ensures ParentOf(true, cs + [c]) == ParentOf(false, cs + [c]) == cs
  {
    assert (cs + [c])[..|cs|] == cs;
    assert [c][..0] == [];
  }

  lemma ParsedRootAndDot()
    ensures Parsed([SEPARATOR]) == [] && Parsed(CURRENT_DIR) == [CURRENT_DIR]
    ensures IsAbsolute([SEPARATOR]) && !IsAbsolute(CURRENT_DIR)
  {
    hide Split;
    SplitUnfold([], 0);
    assert [SEPARATOR][1..] == [];
    SplitUnfold([SEPARATOR], 0);
    SplitComponent(CURRENT_DIR);
  }

  function Foreigns(ts: seq<Text>): (vs: seq<View>)
    ensures |vs| == |ts|
    ensures forall i :: 0 <= i < |ts| ==> vs[i] == Foreign(ts[i])
  {
    seq(|ts|, i requires 0 <= i < |ts| => Foreign(ts[i]))
  }

  lemma ForeignPrefix(buf: Text, absolute: bool, cs: seq<Text>, k: nat)
    requires |buf| == MAX_PATH_SIZE && k <= |cs| && AreComponents(cs) && |Render(absolute, cs)| <= MAX_PATH_SIZE
    ensures Texts(buf, Foreigns(cs[..k])) == cs[..k] && AreComponents(cs[..k])
    ensures Packed(absolute, cs[..k], Foreigns(cs[..k])) && |Render(absolute, cs[..k])| <= MAX_PATH_SIZE
  {
    hide Render;
    RenderPrefix(absolute, cs, k);
  }

  lemma NormalizeStep(absolute: bool, cs: seq<Text>, i: nat)
    requires i <= |cs|
    ensures Normalize(absolute, cs[..0]) == []
    ensures i < |cs| ==> Normalize(absolute, cs[..i + 1]) == NormalizeOne(absolute, Normalize(absolute, cs[..i]), cs[i])
  {
    if i < |cs| { assert cs[..i + 1][..i] == cs[..i]; }
  }

  /** The normal form of a path that fits the buffer fits the buffer. */
  lemma CanonicalFits(buf: Text, absolute: bool, cs: seq<Text>)
    requires |buf| == MAX_PATH_SIZE && AreComponents(cs) && |Render(absolute, cs)| <= MAX_PATH_SIZE
    ensures var ns := Normalize(absolute, cs);
            && Texts(buf, Foreigns(ns)) == ns && AreComponents(ns) && Packed(absolute, ns, Foreigns(ns))
            && |Render(absolute, ns)| <= MAX_PATH_SIZE
  {
    NormalizeIsNormal(absolute, cs);
    NormalizeShrinks(absolute, cs);
  }

  function ViewSize(v: View): nat { match v case Own(_, n) => n case Foreign(text) => |text| }

  /** The views after a rebuild. */
  function Relaid(absolute: bool, cs: seq<Text>): (vs: seq<View>)
    ensures |vs| == |cs|
    ensures forall i :: 0 <= i < |cs| ==> vs[i] == Own(Offset(absolute, cs, i), |cs[i]|)
  {
    seq(|cs|, i requires 0 <= i < |cs| => Own(Offset(absolute, cs, i), |cs[i]|))
  }

  /** The first `current` characters have been laid out; the others are still the original ones. */
  ghost predicate Laid(buf: Text, orig: Text, t: Text, current: nat) {
    && |buf| == |orig| == MAX_PATH_SIZE && current <= MAX_PATH_SIZE && current <= |t|
    && buf[..current] == t[..current] && buf[current..] == orig[current..]
  }

  lemma RenderStart(absolute: bool, cs: seq<Text>)
    ensures Render(absolute, cs[..0]) == if absolute then [SEPARATOR] else []
    ensures Render(absolute, cs[..0]) <= Render(absolute, cs)
  {
  }

  lemma OffsetStart(absolute: bool, cs: seq<Text>)
    ensures Offset(absolute, cs, 0) == if absolute then 1 else 0
  {
    RenderStart(absolute, cs);
  }

  lemma ClipKeepsAbsolute(absolute: bool, cs: seq<Text>)
    requires AreComponents(cs)
    ensures IsAbsolute(Clip(Render(absolute, cs))) == absolute
  {
    hide Split, Render;
    SplitRender(absolute, cs);
  }

  lemma LaidStart(buf: Text, orig: Text, absolute: bool, cs: seq<Text>)
    requires |orig| == MAX_PATH_SIZE && buf == if absolute then orig[0 := SEPARATOR] else orig
    ensures Laid(buf, orig, Render(absolute, cs), if absolute then 1 else 0)
  {
  }

  lemma LaidDone(buf: Text, orig: Text, t: Text, current: nat)
    requires Laid(buf, orig, t, current) && current == Min(MAX_PATH_SIZE, |t|)
    ensures |buf| == MAX_PATH_SIZE && buf[..current] == Clip(t)
  {
  }

  lemma LaySeparator(mid: Text, orig: Text, t: Text, current: nat)
    requires Laid(mid, orig, t, current) && current < MAX_PATH_SIZE && current < |t| && t[current] == SEPARATOR
    ensures Laid(mid[current := SEPARATOR], orig, t, current + 1)
  {
  }

  lemma LayText(mid: Text, orig: Text, t: Text, current: nat, off: nat, c: Text, n: nat)
    requires Laid(mid, orig, t, current) && off + |c| <= |t| && t[off..off + |c|] == c
    requires current == Min(MAX_PATH_SIZE, off) && n == Min(|c|, MAX_PATH_SIZE - current)
    ensures Laid(mid[..current] + c[..n] + mid[current + n..], orig, t, current + n)
  {
    var buf := mid[..current] + c[..n] + mid[current + n..];
    if n > 0 { assert c[..n] == t[off..off + n]; }
    assert buf[..current + n] == t[..current + n];
  }

  /** A view that starts at or after the writing position still denotes its original text. */
  lemma ViewUnmoved(orig: Text, mid: Text, t: Text, v: View, current: nat)
    requires Laid(mid, orig, t, current) && InBounds(v) && (v.Own? ==> current <= v.off)
    ensures ViewText(mid, v) == ViewText(orig, v) && |ViewText(orig, v)| == ViewSize(v)
  {
    if v.Own? { assert forall p :: current <= p < MAX_PATH_SIZE ==> mid[p] == mid[current..][p - current]; }
  }

  lemma RelaidText(buf: Text, len: nat, absolute: bool, cs: seq<Text>, i: nat)
    requires |buf| == MAX_PATH_SIZE && len <= MAX_PATH_SIZE && buf[..len] == Render(absolute, cs) && i < |cs|
    ensures var v := Own(Offset(absolute, cs, i), |cs[i]|); InBounds(v) && ViewText(buf, v) == cs[i]
  {
    hide Render, Offset;
    var off, end := Offset(absolute, cs, i), Offset(absolute, cs, i) + |cs[i]|;
    RenderedComponent(absolute, cs, i);
    assert buf[off..end] == buf[..len][off..end];
  }

  lemma RelaidDescribes(buf: Text, len: nat, absolute: bool, cs: seq<Text>)
    requires |buf| == MAX_PATH_SIZE && len <= MAX_PATH_SIZE && buf[..len] == Clip(Render(absolute, cs))
    requires AreComponents(cs) && |cs| <= MAX_COMPONENTS
    ensures Describes(buf, len, absolute, Relaid(absolute, cs)) <==> |Render(absolute, cs)| <= MAX_PATH_SIZE
    ensures Describes(buf, len, absolute, Relaid(absolute, cs)) ==> Texts(buf, Relaid(absolute, cs)) == cs
  {
    hide Render, Offset, AreComponents, Split, Relaid, Texts;
    var vs, t := Relaid(absolute, cs), Render(absolute, cs);
    SplitRender(absolute, cs);
    if |t| <= MAX_PATH_SIZE {
      assert buf[..len] == t && |t| == len;
      forall i | 0 <= i < |cs| ensures InBounds(vs[i]) && ViewText(buf, vs[i]) == cs[i] {
        RelaidText(buf, len, absolute, cs, i);
      }
      assert Texts(buf, vs) == cs == cs[..|cs|];
    } else {
      LastReachesEnd(absolute, cs);
    }
  }

  lemma LastReachesEnd(absolute: bool, cs: seq<Text>)
    requires |Render(absolute, cs)| > 1
    ensures cs != [] && Offset(absolute, cs, |cs| - 1) + |cs[|cs| - 1]| == |Render(absolute, cs)|
  {
    RenderNext(absolute, cs, |cs| - 1);
    assert cs[..|cs|] == cs;
  }

  lemma DescribesComponents(buf: Text, len: nat, absolute: bool, vs: seq<View>)
    requires Describes(buf, len, absolute, vs)
    ensures |vs| <= MAX_COMPONENTS && OwnViews(vs)
    ensures AreComponents(Texts(buf, vs)) && |Render(absolute, Texts(buf, vs))| <= MAX_PATH_SIZE
  {
  }

  lemma AppendForeign(buf: Text, len: nat, absolute: bool, vs: seq<View>, ws: seq<View>, ds: seq<Text>)
    requires Describes(buf, len, absolute, vs) && |ws| == |ds| && AreComponents(ds)
    requires forall i :: 0 <= i < |ws| ==> ws[i] == Foreign(ds[i])
    ensures Texts(buf, vs + ws) == Texts(buf, vs) + ds
    ensures AreComponents(Texts(buf, vs + ws)) && Packed(absolute, Texts(buf, vs + ws), vs + ws)
    ensures forall i :: 0 <= i < |vs + ws| ==> InBounds((vs + ws)[i])
  {
    hide Render, Offset, Parsed;
    var cs := Texts(buf, vs);
    forall i | 0 <= i < |vs| ensures Offset(absolute, cs + ds, i) == Offset(absolute, cs, i) {
      OffsetStable(absolute, cs, ds, i);
    }
  }

  /** The search finds the end of the component that starts at `pos`. */
  lemma NextSeparator(text: Text, pos: nat, found: Position)
    requires pos < |text| && IsFirstMatch(text, [SEPARATOR], pos, found)
    ensures var next := if found.Npos? then |text| else found.index;
            && pos <= next <= |text| && SEPARATOR !in text[pos..next]
            && (next == pos ==> Split(text[pos..]) == Split(text[pos + 1..]))
            && (next > pos ==> Split(text[pos..]) == [text[pos..next]]
                                                     + if next + 1 <= |text| then Split(text[next + 1..]) else [])
  {
    hide Split;
    var next := if found.Npos? then |text| else found.index;
    forall q | pos <= q < next ensures text[q] != SEPARATOR {
      assert MatchAt(text, [SEPARATOR], q) <==> text[q..q + 1] == [SEPARATOR];
      assert text[q..q + 1] == [text[q]];
    }
    if found.At? { assert text[next..next + 1] == [text[next]]; }
    var t, k := text[pos..], next - pos;
    assert t[..k] == text[pos..next];
    assert k < |t| ==> t[k + 1..] == text[next + 1..];
    SplitUnfold(t, k);
  }

  lemma AppendParsed(absolute: bool, cs: seq<Text>, vs: seq<View>, pos: nat, c: Text)
    requires AreComponents(cs) && Packed(absolute, cs, vs) && IsComponent(c)
    requires Offset(absolute, cs, |cs|) <= pos
    ensures AreComponents(cs + [c])
    ensures Packed(absolute, cs + [c], vs + [Own(pos, |c|)])
    ensures Offset(absolute, cs + [c], |cs| + 1) <= pos + |c| + 1
    ensures |Render(absolute, cs + [c])| <= pos + |c|
  {
    var ds := cs + [c];
    forall i | 0 <= i <= |cs| ensures Offset(absolute, ds, i) == Offset(absolute, cs, i) {
      OffsetStable(absolute, cs, [c], i);
    }
    OffsetNext(absolute, ds, |cs|);
    RenderNext(absolute, ds, |cs|);
    assert ds[..|cs| + 1] == ds;
  }

  /** The components a path object made from `p` has. */
  function Entered(p: Text): seq<Text> { Parsed(p[..Min(|p|, MAX_PATH_SIZE - 1)]) }

  /** The components `ResolvePath` normalises. */
  function ToResolve(cwd: seq<Text>, p: Text): seq<Text> {
    if IsAbsolute(p) then Entered(p)
    else if |cwd| + |Entered(p)| > MAX_COMPONENTS then cwd
    else cwd + Entered(p)
  }

  /** Nothing of `p` is lost to the limits. */
  predicate WithinLimits(cwd: seq<Text>, p: Text) {
    |p| < MAX_PATH_SIZE && (if IsAbsolute(p) then 0 else |cwd|) + |Split(p)| <= MAX_COMPONENTS
  }

  lemma EnteredWhole(cwd: seq<Text>, p: Text)
    ensures WithinLimits(cwd, p) ==> ToResolve(cwd, p) == if IsAbsolute(p) then Split(p) else cwd + Split(p)
  {
    assert p[..|p|] == p && Split(p)[..|Split(p)|] == Split(p);
  }

  /** Of a path of 1024 or more characters the first 1023 are entered, and at most 64 components. */
  lemma EnteredIsClipped(p: Text)
    ensures |Entered(p)| <= 64
    ensures |p| >= 1_024 ==> Entered(p) == Entered(p[..1_023])
    ensures |p| < 1_024 ==> Entered(p) == if |Split(p)| <= 64 then Split(p) else Split(p)[..64]
  {
    assert p[..|p|] == p && Split(p)[..|Split(p)|] == Split(p);
    if |p| >= 1_024 { assert p[..1_023][..1_023] == p[..1_023]; }
  }

  /** A path that fits the buffer is resolved as a whole exactly within the limits. */
  lemma ResolvedWholeIff(cwd: seq<Text>, p: Text)
    requires |p| < 1_024 && |cwd| <= 64
    ensures ToResolve(cwd, p) == (if IsAbsolute(p) then Split(p) else cwd + Split(p)) <==> WithinLimits(cwd, p)
  {
    hide Split, Parsed, Entered;
    EnteredIsClipped(p);
    EnteredWhole(cwd, p);
    if !IsAbsolute(p) && |cwd| + |Entered(p)| > 64 && cwd == cwd + Split(p) {
      assert |cwd + Split(p)| == |cwd| + |Split(p)|;
    }
  }

  /** Walking what is resolved is walking `p` from where the current directory leads. */
  lemma ResolvedWalk(cwd: seq<Text>, p: Text)
    requires WithinLimits(cwd, p)
    ensures Walk([], Normalize(true, ToResolve(cwd, p)))
            == Walk(if IsAbsolute(p) then [] else Walk([], cwd), Split(p))
  {
    hide Walk, Normalize, Split, ToResolve;
    EnteredWhole(cwd, p);
    NormalizeKeepsWalk(true, ToResolve(cwd, p), []);
    WalkConcat([], cwd, Split(p));
  }

  /**
   `Shell::ResolvePath`: from an absolute current directory the result is the normal path that leads
   where walking `p` from the current directory leads.
   */
  method ResolvePath(cwd: Path, p: Text) returns (result: Path)
    requires cwd.Valid()
    requires !IsAbsolute(p) ==> |Render(cwd.absolute, ToResolve(cwd.Components(), p))| <= MAX_PATH_SIZE
    ensures fresh(result) && fresh(result.raw) && result.Valid()
    ensures result.absolute == (cwd.absolute || IsAbsolute(p))
    ensures p == [] ==> result.Components() == cwd.Components()
    ensures p != [] ==> result.Components() == Normalize(result.absolute, ToResolve(cwd.Components(), p))
    ensures p != [] && result.absolute && WithinLimits(cwd.Components(), p) ==>
              Walk([], result.Components()) == Walk(if IsAbsolute(p) then [] else Walk([], cwd.Components()), Split(p))
  {
    hide Render, AreComponents, Packed, Describes, Texts, Split, Parsed, Clip, Normalize, Walk, WithinLimits;
    if p == [] {
      result := new Path.Copy(cwd);
      return;
    }
    var path := new Path(p);
    path.TextGivesComponents();
    if path.absolute {
      result := path.GetWeaklyCanonical();
    } else {
      var joined := cwd.Div(path);
      result := joined.GetWeaklyCanonical();
    }
    if WithinLimits(cwd.Components(), p) && result.absolute {
      ResolvedWalk(cwd.Components(), p);
    }
  }
}
