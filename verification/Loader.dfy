/**
 The ELF loader (`ElfLoader::Load`): every loadable segment in turn, and a rollback that removes
 their areas when one fails.
 */
module Loader {
  import opened Basics
  import opened Paging
  import opened Areas
  import opened VirtualMemory
  import opened Vmm
  import opened LoadedSpace
  import opened Segments

  // ---------------------------------------------------------------------------------------------
  // What the first headers amount to
  // ---------------------------------------------------------------------------------------------

  predicate AllWf(phs: seq<ProgramHeader>) { forall i :: 0 <= i < |phs| ==> PhWf(phs[i]) }

  /** The area list once the first `n` headers are loaded. */
  function AreasAfter(l: seq<Area>, phs: seq<ProgramHeader>, n: nat): seq<Area>
    requires n <= |phs| && AllWf(phs)
  {
    if n == 0 then l
    else
      var r := AreasAfter(l, phs, n - 1);
      if Loadable(phs[n - 1]) then Insert(r, SegArea(phs[n - 1], Permissions(phs[n - 1]))) else r
  }

  /** Every byte written for the first `n` headers, later writes over earlier ones. */
  function Image(phs: seq<ProgramHeader>, file: seq<Byte>, answers: seq<Answers>, n: nat): map<Addr, Byte>
    requires n <= |phs| == |answers|
  {
    if n == 0 then map[]
    else
      var m := Image(phs, file, answers, n - 1);
      if Loadable(phs[n - 1]) then m + SegImage(phs[n - 1], file, answers[n - 1]) else m
  }

  /** Header `i` gets no area: an allocator refuses, or its pages are taken. */
  ghost predicate IsRefused(l: seq<Area>, phs: seq<ProgramHeader>, answers: seq<Answers>, i: nat)
    requires i < |phs| == |answers| && AllWf(phs) && Loadable(phs[i])
  {
    || !answers[i].vmaAllocated || !answers[i].nodeAllocated
    || Collides(AreasAfter(l, phs, i), SegArea(phs[i], Permissions(phs[i])))
  }

  /** A file byte of header `i` has no writable memory to go to. */
  ghost predicate IsFaulty(l: seq<Area>, phs: seq<ProgramHeader>, file: seq<Byte>, answers: seq<Answers>, i: nat)
    requires i < |phs| == |answers| && AllWf(phs)
  {
    FaultsIn(AreasAfter(l, phs, i), phs[i], file, answers[i])
  }

  /** The first `n` headers get their areas. */
  ghost predicate AllPlaced(l: seq<Area>, phs: seq<ProgramHeader>, answers: seq<Answers>, n: nat)
    requires n <= |phs| == |answers| && AllWf(phs)
  {
    forall i: nat :: i < n && Loadable(phs[i]) ==> !IsRefused(l, phs, answers, i)
  }

  /** The first `n` headers load. */
  ghost predicate AllLoad(l: seq<Area>, phs: seq<ProgramHeader>, file: seq<Byte>, answers: seq<Answers>, n: nat)
    requires n <= |phs| == |answers| && AllWf(phs)
  {
    forall i: nat :: i < n && Loadable(phs[i]) ==>
                       && !IsRefused(l, phs, answers, i)
                       && !IsFaulty(l, phs, file, answers, i)
                       && !IsShort(phs[i], file, answers[i])
  }

  predicate AllInHull(phs: seq<ProgramHeader>, n: nat)
    requires n <= |phs|
  {
    forall i :: 0 <= i < n ==> InHull(phs[i])
  }

  lemma {:induction false} OldAreasStay(l: seq<Area>, phs: seq<ProgramHeader>, n: nat, a: Area)
    requires n <= |phs| && AllWf(phs) && a in l
    ensures a in AreasAfter(l, phs, n)
  {
    if n > 0 {
      OldAreasStay(l, phs, n - 1, a);
      if Loadable(phs[n - 1]) {
        InsertMembers(AreasAfter(l, phs, n - 1), SegArea(phs[n - 1], Permissions(phs[n - 1])), a);
      }
    }
  }

  lemma {:induction false} SegmentsStay(l: seq<Area>, phs: seq<ProgramHeader>, n: nat, i: nat)
    requires i < n <= |phs| && AllWf(phs) && Loadable(phs[i])
    ensures SegArea(phs[i], Permissions(phs[i])) in AreasAfter(l, phs, n)
  {
    if Loadable(phs[n - 1]) {
      InsertMembers(AreasAfter(l, phs, n - 1), SegArea(phs[n - 1], Permissions(phs[n - 1])),
                    SegArea(phs[i], Permissions(phs[i])));
    }
    if i < n - 1 { SegmentsStay(l, phs, n - 1, i); }
  }

  /** A placed segment meets no area that is present. */
  lemma PlacedApart(l: seq<Area>, phs: seq<ProgramHeader>, answers: seq<Answers>, i: nat, a: Area, y: Addr)
    requires i < |phs| == |answers| && AllWf(phs) && Loadable(phs[i]) && !IsRefused(l, phs, answers, i)
    requires a in AreasAfter(l, phs, i) && InSegment(phs[i], y)
    ensures !IsAddrInArea(a, y)
  {
    hide AreasAfter, InSegment, Permissions;
    var r := AreasAfter(l, phs, i);
    InSegmentIff(phs[i], Permissions(phs[i]), y);
    var k :| 0 <= k < |r| && r[k] == a;
    assert !AreasOverlap(r[k], SegArea(phs[i], Permissions(phs[i])));
  }

  lemma PlacedOffOld(l: seq<Area>, phs: seq<ProgramHeader>, answers: seq<Answers>, i: nat, y: Addr)
    requires i < |phs| == |answers| && AllWf(phs) && Loadable(phs[i]) && !IsRefused(l, phs, answers, i)
    requires InSegment(phs[i], y)
    ensures Owner(l, y) == |l|
  {
    hide IsRefused, InSegment, Owner;
    if Owner(l, y) < |l| {
      OldAreasStay(l, phs, i, l[Owner(l, y)]);
      PlacedApart(l, phs, answers, i, l[Owner(l, y)], y);
    }
  }

  lemma PlacedOffEarlier(l: seq<Area>, phs: seq<ProgramHeader>, answers: seq<Answers>, i: nat, j: nat, y: Addr)
    requires i < j < |phs| == |answers| && AllWf(phs) && Loadable(phs[i]) && Loadable(phs[j])
    requires !IsRefused(l, phs, answers, j) && InSegment(phs[j], y)
    ensures !InSegment(phs[i], y)
  {
    hide IsRefused, InSegment, Permissions;
    SegmentsStay(l, phs, j, i);
    PlacedApart(l, phs, answers, j, SegArea(phs[i], Permissions(phs[i])), y);
    InSegmentIff(phs[i], Permissions(phs[i]), y);
  }

  lemma SegImageInHull(ph: ProgramHeader, file: seq<Byte>, ans: Answers, y: Addr)
    requires PhWf(ph) && Loadable(ph) && InHull(ph) && y in SegImage(ph, file, ans)
    ensures InSegment(ph, y)
  {
    hide IsPage, PageDown, PageUp, BytesAt, Transferred;
    SegmentBounds(ph);
  }

  /** While every file part stays in its hull, so does everything written. */
  lemma {:induction false} ImageInHull(phs: seq<ProgramHeader>, file: seq<Byte>, answers: seq<Answers>, n: nat, y: Addr)
    returns (i: nat)
    requires n <= |phs| == |answers| && AllWf(phs) && AllInHull(phs, n) && y in Image(phs, file, answers, n)
    ensures i < n && Loadable(phs[i]) && InSegment(phs[i], y)
  {
    hide InSegment, SegImage, InHull;
    if Loadable(phs[n - 1]) && y in SegImage(phs[n - 1], file, answers[n - 1]) {
      i := n - 1;
      SegImageInHull(phs[i], file, answers[i], y);
    } else {
      i := ImageInHull(phs, file, answers, n - 1, y);
    }
  }

  /** In-hull headers write to nothing that was there before. */
  lemma InHullSparesOld(l: seq<Area>, phs: seq<ProgramHeader>, file: seq<Byte>, answers: seq<Answers>, n: nat)
    requires n <= |phs| == |answers| && AllWf(phs) && AllInHull(phs, n) && AllPlaced(l, phs, answers, n)
    ensures forall y :: y in Image(phs, file, answers, n) ==> Owner(l, y) == |l|
  {
    hide Image, InSegment, InHull, Owner, IsRefused;
    forall y | y in Image(phs, file, answers, n) ensures Owner(l, y) == |l| {
      var i := ImageInHull(phs, file, answers, n, y);
      PlacedOffOld(l, phs, answers, i, y);
    }
  }

  /** In-hull headers do not write to each other's segments either. */
  lemma {:induction false} ImageAt(l: seq<Area>, phs: seq<ProgramHeader>, file: seq<Byte>, answers: seq<Answers>,
                                   n: nat, i: nat, x: Addr)
    requires i < n <= |phs| == |answers| && AllWf(phs) && AllInHull(phs, n) && AllPlaced(l, phs, answers, n)
    requires Loadable(phs[i]) && InSegment(phs[i], x)
    ensures x in Image(phs, file, answers, n) <==> x in SegImage(phs[i], file, answers[i])
    ensures x in Image(phs, file, answers, n) ==>
              Image(phs, file, answers, n)[x] == SegImage(phs[i], file, answers[i])[x]
  {
    hide InSegment, SegImage, InHull, IsRefused;
    if i == n - 1 {
      if x in Image(phs, file, answers, i) {
        var j := ImageInHull(phs, file, answers, i, x);
        PlacedOffEarlier(l, phs, answers, j, i, x);
      }
    } else {
      ImageAt(l, phs, file, answers, n - 1, i, x);
      if Loadable(phs[n - 1]) && x in SegImage(phs[n - 1], file, answers[n - 1]) {
        SegImageInHull(phs[n - 1], file, answers[n - 1], x);
        PlacedOffEarlier(l, phs, answers, i, n - 1, x);
      }
    }
  }

  // ---------------------------------------------------------------------------------------------
  // Rollback
  // ---------------------------------------------------------------------------------------------

  /** Start addresses of the loadable segments, in header order. */
  function LoadStarts(phs: seq<ProgramHeader>): seq<Addr> {
    if phs == [] then []
    else LoadStarts(phs[..|phs| - 1]) + if Loadable(phs[|phs| - 1]) then [SegStart(phs[|phs| - 1])] else []
  }

  lemma {:induction false} LoadStartsPrefix(phs: seq<ProgramHeader>, i: nat)
    requires i <= |phs|
    ensures LoadStarts(phs[..i]) <= LoadStarts(phs)
    decreases |phs|
  {
    if i < |phs| {
      LoadStartsPrefix(phs[..|phs| - 1], i);
      assert phs[..|phs| - 1][..i] == phs[..i];
    } else {
      assert phs[..i] == phs;
    }
  }

  lemma LoadStartsNext(phs: seq<ProgramHeader>, i: nat)
    requires i < |phs|
    ensures LoadStarts(phs[..i + 1]) == LoadStarts(phs[..i]) + if Loadable(phs[i]) then [SegStart(phs[i])] else []
  {
    assert phs[..i + 1][..i] == phs[..i];
  }

  function Elements(l: seq<Addr>): set<Addr> { set x | x in l }

  /** Some non-empty area starts at `x`. */
  ghost predicate StartsAt(areas: seq<Area>, x: Addr) {
    exists k :: 0 <= k < |areas| && areas[k].start == x && areas[k].size > 0
  }

  /** Distinct starts, each with an area of its own: what the rollback loop relies on. */
  ghost predicate Undoable(starts: seq<Addr>, areas: seq<Area>) {
    && (forall i, j :: 0 <= i < j < |starts| ==> starts[i] != starts[j])
    && (forall j :: 0 <= j < |starts| ==> StartsAt(areas, starts[j]))
  }

  lemma RemoveStart(s: Space, x: Addr, added: set<Addr>)
    requires SpaceInv(s) && StartsAt(s.areas, x) && x in added
    ensures Owner(s.areas, x) < |s.areas| && IsNew(s.areas[Owner(s.areas, x)], added)
    ensures !StartsAt(RemoveFrom(s, x).areas, x)
    ensures forall q :: q != x ==> (StartsAt(RemoveFrom(s, x).areas, q) <==> StartsAt(s.areas, q))
  {
    hide IsPage, PageDown, PageUp, Owner, SpaceInv, ListWf, Without;
    SpaceHasList(s);
    var k: nat :| k < |s.areas| && s.areas[k].start == x && s.areas[k].size > 0;
    OwnerIs(s.areas, x, k);
    var r := RemoveFrom(s, x).areas;
    forall i: nat | i < |r| && r[i].start == x && r[i].size > 0 ensures false {
      OwnerIs(s.areas, x, if i < k then i else i + 1);
    }
    forall q | q != x && StartsAt(s.areas, q) ensures StartsAt(r, q) {
      var j: nat :| j < |s.areas| && s.areas[j].start == q && s.areas[j].size > 0;
      assert r[if j < k then j else j - 1] == s.areas[j];
    }
  }

  /** The page table has only lost entries. */
  ghost predicate Shrunk(pt: PageTable, pt': PageTable) {
    forall p :: p in pt' ==> p in pt && pt'[p] == pt[p]
  }

  lemma RemoveShrinks(pt: PageTable, s: Space, ptr: Addr)
    requires Shrunk(pt, s.pt)
    ensures Shrunk(pt, RemoveFrom(s, ptr).pt)
  {
    hide Owner, PageInRange;
  }

  /**
   Removes the first `count` loadable segments.  The area list is the old one again; the page table
   is the old one exactly when nothing was written to an unmapped page of an old area.
   */
  method Rollback(vmm: Manager, phs: seq<ProgramHeader>, count: nat, ghost s0: Space, ghost written: map<Addr, Byte>)
    requires Ready(vmm) && count <= |LoadStarts(phs)|
    requires Extends(s0, vmm.current.Value(), Elements(LoadStarts(phs)[..count]), written)
    requires Undoable(LoadStarts(phs)[..count], vmm.current.areas)
    modifies vmm`tlb, vmm.current
    ensures Ready(vmm) && vmm.current.areas == s0.areas
    ensures OldPlusStray(s0, written, vmm.current.pt)
    ensures vmm.current.Value() == s0 <==> NoStray(s0, written)
    ensures Extends(s0, vmm.current.Value(), Elements(LoadStarts(phs)[..count]), written)
    ensures Shrunk(old(vmm.current.pt), vmm.current.pt)
  {
    hide IsPage, PageDown, PageUp, SpaceInv, Backed, Extends, Owner, CachedBy, RemoveFrom, StartsAt, KeepsFrames, IsNew;
    hide NoStray, Shrunk, Undoable, OldPlusStray;
    ghost var starts := LoadStarts(phs);
    ghost var added := Elements(starts[..count]);
    UndoableMeans(starts, count, vmm.current.areas);
    ShrunkItself(vmm.current.pt);
    var i, cleaned := 0, 0;
    while i < |phs| && cleaned < count
      invariant 0 <= i <= |phs| && cleaned <= count && cleaned == |LoadStarts(phs[..i])|
      invariant vmm.current == old(vmm.current) && Ready(vmm) && Extends(s0, vmm.current.Value(), added, written)
      invariant Shrunk(old(vmm.current.pt), vmm.current.pt)
      invariant forall j :: 0 <= j < cleaned ==> !StartsAt(vmm.current.areas, starts[j])
      invariant forall j :: cleaned <= j < count ==> StartsAt(vmm.current.areas, starts[j])
    {
      LoadStartsNext(phs, i);
      LoadStartsPrefix(phs, i + 1);
      if Loadable(phs[i]) {
        ghost var s := vmm.current.Value();
        assert SegStart(phs[i]) == starts[cleaned] && starts[cleaned] in added;
        RemoveStart(s, starts[cleaned], added);
        ExtendsRemove(s0, s, added, written, starts[cleaned]);
        RemoveKeepsSpaceInv(s, starts[cleaned]);
        RemoveShrinks(old(vmm.current.pt), s, starts[cleaned]);
        FewerPagesBacked(s, RemoveFrom(s, starts[cleaned]), vmm.used, vmm.mem);
        var _ := vmm.RmArea(vmm.current, SegStart(phs[i]));
        cleaned := cleaned + 1;
      }
      i := i + 1;
    }
    assert cleaned == count by {
      if i == |phs| { assert phs[..i] == phs; }
    }
    NothingNew(vmm.current.areas, starts[..count]);
    RolledBack(s0, vmm.current.Value(), added, written);
  }

  lemma ShrunkItself(pt: PageTable)
    ensures Shrunk(pt, pt)
  {
  }

  lemma UndoableMeans(starts: seq<Addr>, count: nat, areas: seq<Area>)
    requires count <= |starts| && Undoable(starts[..count], areas)
    ensures forall i, j :: 0 <= i < j < count ==> starts[i] != starts[j]
    ensures forall j :: 0 <= j < count ==> StartsAt(areas, starts[j])
  {
    hide StartsAt;
    var done := starts[..count];
    assert forall j :: 0 <= j < count ==> done[j] == starts[j];
  }

  lemma NothingNew(areas: seq<Area>, starts: seq<Addr>)
    requires forall j :: 0 <= j < |starts| ==> !StartsAt(areas, starts[j])
    ensures forall i :: 0 <= i < |areas| ==> !IsNew(areas[i], Elements(starts))
  {
  }

  /** A page of an old area that is mapped before the rollback is mapped the same after it. */
  lemma OldPageStays(s0: Space, s: Space, s': Space, added: set<Addr>, written: map<Addr, Byte>, y: Addr)
    requires Extends(s0, s, added, written) && Extends(s0, s', added, written) && Shrunk(s.pt, s'.pt)
    requires Owner(s0.areas, y) < |s0.areas| && PageDown(y) in s.pt
    ensures PageDown(y) in s'.pt && s'.pt[PageDown(y)] == s.pt[PageDown(y)]
  {
    hide PageDown, Owner, SpaceInv, Keep, IsStray;
    OldOwnerIff(s0, s, added, y);
    PageOwner(s0, s, added, y);
  }

  lemma ByteByEntry(pt: PageTable, pt': PageTable, mem: Memory, y: Addr)
    requires PageDown(y) in pt <==> PageDown(y) in pt'
    requires PageDown(y) in pt ==> pt'[PageDown(y)] == pt[PageDown(y)]
    ensures ByteAt(pt', mem, y) == ByteAt(pt, mem, y)
  {
  }

  /** Memory that was there before reads after the rollback as it did just before it. */
  lemma RollbackKeepsBytes(s0: Space, s: Space, s': Space, added: set<Addr>, written: map<Addr, Byte>,
                           mem0: Memory, mem: Memory)
    requires Extends(s0, s, added, written) && Extends(s0, s', added, written) && Shrunk(s.pt, s'.pt)
    requires Stored(s.areas, s0.pt, mem0, s.pt, mem, written)
    ensures Stored(s0.areas, s0.pt, mem0, s'.pt, mem, written)
  {
    hide PageDown, Owner, SpaceInv, Keep, IsStray, ByteAt, OwnedByNew;
    forall y: Addr | AnonAddr(s0.areas, y)
      ensures ByteAt(s'.pt, mem, y) == if y in written then written[y] else ByteAt(s0.pt, mem0, y)
    {
      OldOwnerIff(s0, s, added, y);
      if PageDown(y) in s.pt { OldPageStays(s0, s, s', added, written, y); }
      ByteByEntry(s.pt, s'.pt, mem, y);
    }
  }

  // ---------------------------------------------------------------------------------------------
  // Progress of the load
  // ---------------------------------------------------------------------------------------------

  /** The space has grown by the first `n` headers, and reads as their image over the old memory. */
  ghost predicate Grown(phs: seq<ProgramHeader>, n: nat, file: seq<Byte>, answers: seq<Answers>,
                        s0: Space, mem0: Memory, s: Space, mem: Memory)
  {
    && n <= |phs| == |answers|
    && Extends(s0, s, Elements(LoadStarts(phs[..n])), Image(phs, file, answers, n))
    && Stored(s.areas, s0.pt, mem0, s.pt, mem, Image(phs, file, answers, n))
    && Undoable(LoadStarts(phs[..n]), s.areas)
  }

  ghost predicate ImageOwned(w: map<Addr, Byte>, areas: seq<Area>) {
    forall y :: y in w ==> Owner(areas, y) < |areas|
  }

  ghost predicate Progress(phs: seq<ProgramHeader>, n: nat, file: seq<Byte>, answers: seq<Answers>,
                           s0: Space, mem0: Memory, s: Space, mem: Memory)
  {
    && Grown(phs, n, file, answers, s0, mem0, s, mem)
    && AllWf(phs) && s.areas == AreasAfter(s0.areas, phs, n)
    && ImageOwned(Image(phs, file, answers, n), s.areas)
  }

  lemma ProgressStart(phs: seq<ProgramHeader>, file: seq<Byte>, answers: seq<Answers>, s: Space, mem: Memory)
    requires SpaceInv(s) && |phs| == |answers| && AllWf(phs)
    ensures Progress(phs, 0, file, answers, s, mem, s, mem)
  {
    ExtendsItself(s);
    assert LoadStarts(phs[..0]) == [] && Elements([]) == {};
    StoredNothing(s.areas, s.pt, mem, map[]);
  }

  lemma ProgressSkip(phs: seq<ProgramHeader>, n: nat, file: seq<Byte>, answers: seq<Answers>,
                     s0: Space, mem0: Memory, s: Space, mem: Memory)
    requires n < |phs| && Progress(phs, n, file, answers, s0, mem0, s, mem) && !Loadable(phs[n])
    ensures Progress(phs, n + 1, file, answers, s0, mem0, s, mem)
    ensures LoadStarts(phs[..n + 1]) == LoadStarts(phs[..n])
  {
    hide Extends, Stored, Undoable, ImageOwned;
    LoadStartsNext(phs, n);
    assert LoadStarts(phs[..n + 1]) == LoadStarts(phs[..n]);
  }

  lemma StartStays(areas: seq<Area>, a: Area, x: Addr)
    requires StartsAt(areas, x)
    ensures StartsAt(Insert(areas, a), x)
  {
    hide Insert;
    var i :| 0 <= i < |areas| && areas[i].start == x && areas[i].size > 0;
    InsertMembers(areas, a, areas[i]);
    var r := Insert(areas, a);
    var k :| 0 <= k < |r| && r[k] == areas[i];
    assert r[k].start == x;
  }

  lemma NewStart(areas: seq<Area>, a: Area)
    requires a.size > 0
    ensures StartsAt(Insert(areas, a), a.start)
  {
    hide Insert;
    InsertAt(areas, a, InsertPos(areas, a));
  }

  lemma StartTaken(areas: seq<Area>, a: Area, x: Addr)
    requires StartsAt(areas, x) && a.size > 0 && !Collides(areas, a)
    ensures x != a.start
  {
    var i :| 0 <= i < |areas| && areas[i].start == x && areas[i].size > 0;
    assert !AreasOverlap(areas[i], a);
  }

  /** A further area keeps the collection of starts undoable. */
  lemma UndoableGrows(starts: seq<Addr>, areas: seq<Area>, a: Area)
    requires Undoable(starts, areas) && a.size > 0 && !Collides(areas, a)
    ensures Undoable(starts + [a.start], Insert(areas, a))
  {
    hide Insert, StartsAt, Collides;
    NewStart(areas, a);
    forall j | 0 <= j < |starts| ensures StartsAt(Insert(areas, a), starts[j]) && starts[j] != a.start {
      StartStays(areas, a, starts[j]);
      StartTaken(areas, a, starts[j]);
    }
  }

  /** Memory that no area covers reads as zero. */
  lemma UnownedIsZero(s: Space, mem: Memory, y: Addr)
    requires SpaceInv(s) && Owner(s.areas, y) == |s.areas|
    ensures ByteAt(s.pt, mem, y) == 0
  {
    hide IsPage, PageDown, PageUp, Owner, SpaceInv;
    if PageDown(y) in s.pt { MappedWritable(s, y); }
  }

  /** Bytes of a new segment are untouched before it is loaded. */
  lemma NewBytesAreFresh(phs: seq<ProgramHeader>, n: nat, file: seq<Byte>, answers: seq<Answers>,
                         s0: Space, mem0: Memory, s: Space, mem: Memory, y: Addr)
    requires Progress(phs, n, file, answers, s0, mem0, s, mem) && SpaceInv(s0)
    requires Owner(s.areas, y) == |s.areas|
    ensures y !in Image(phs, file, answers, n)
    ensures ByteAt(s.pt, mem, y) == 0 == ByteAt(s0.pt, mem0, y)
  {
    hide Owner, SpaceInv, Image, Keep, Stored, Undoable, ByteAt, IsStray, OwnedByNew;
    UnownedIsZero(s, mem, y);
    OldOwnerIff(s0, s, Elements(LoadStarts(phs[..n])), y);
    UnownedIsZero(s0, mem0, y);
  }

  /** The bytes after one more segment. */
  lemma StoredGrows(phs: seq<ProgramHeader>, n: nat, file: seq<Byte>, answers: seq<Answers>,
                    s0: Space, mem0: Memory, s: Space, mem: Memory, a: Area, pt': PageTable, mem': Memory,
                    w: map<Addr, Byte>)
    requires Progress(phs, n, file, answers, s0, mem0, s, mem) && SpaceInv(s0)
    requires AreaWf(a) && !Collides(s.areas, a)
    requires Stored(Insert(s.areas, a), s.pt, mem, pt', mem', w)
    ensures Stored(Insert(s.areas, a), s0.pt, mem0, pt', mem', Image(phs, file, answers, n) + w)
  {
    hide Owner, SpaceInv, Image, Undoable, ByteAt, Insert, AreaWf, Extends, ImageOwned, AreasAfter, Collides;
    var m := Image(phs, file, answers, n);
    assert ListWf(s.areas) by { ExtendsHasList(s0, s, Elements(LoadStarts(phs[..n])), m); }
    forall y: Addr | AnonAddr(Insert(s.areas, a), y)
      ensures ByteAt(pt', mem', y) == if y in m + w then (m + w)[y] else ByteAt(s0.pt, mem0, y)
    {
      InsertOwner(s.areas, a, y);
      if Owner(s.areas, y) == |s.areas| { NewBytesAreFresh(phs, n, file, answers, s0, mem0, s, mem, y); }
    }
  }

  lemma ExtendsIsSpace(s0: Space, s: Space, added: set<Addr>, written: map<Addr, Byte>)
    requires Extends(s0, s, added, written)
    ensures SpaceInv(s)
  {
  }

  lemma ExtendsHasList(s0: Space, s: Space, added: set<Addr>, written: map<Addr, Byte>)
    requires Extends(s0, s, added, written)
    ensures ListWf(s.areas)
  {
  }

  lemma GrowStep(phs: seq<ProgramHeader>, n: nat, file: seq<Byte>, answers: seq<Answers>,
                 s0: Space, mem0: Memory, s: Space, mem: Memory, f: AreaFlags, s': Space, mem': Memory)
    requires n < |phs| && Progress(phs, n, file, answers, s0, mem0, s, mem) && SpaceInv(s0) && Loadable(phs[n])
    requires !Collides(s.areas, SegArea(phs[n], f)) && s'.areas == Insert(s.areas, SegArea(phs[n], f))
    requires Extends(s0, s', Elements(LoadStarts(phs[..n])) + {SegStart(phs[n])},
                     Image(phs, file, answers, n) + SegImage(phs[n], file, answers[n]))
    requires Stored(s'.areas, s.pt, mem, s'.pt, mem', SegImage(phs[n], file, answers[n]))
    ensures Grown(phs, n + 1, file, answers, s0, mem0, s', mem')
  {
    hide IsPage, PageDown, PageUp, Owner, SpaceInv, Undoable, Stored, Extends, SegImage, Insert, Collides, AreaWf;
    hide ImageOwned, AreasAfter;
    LoadStartsNext(phs, n);
    assert Elements(LoadStarts(phs[..n + 1])) == Elements(LoadStarts(phs[..n])) + {SegStart(phs[n])};
    SegAreaWf(phs[n], f);
    UndoableGrows(LoadStarts(phs[..n]), s.areas, SegArea(phs[n], f));
    StoredGrows(phs, n, file, answers, s0, mem0, s, mem, SegArea(phs[n], f), s'.pt, mem',
                SegImage(phs[n], file, answers[n]));
  }

  /** Everything a segment writes without faulting is owned afterwards. */
  lemma SegImageOwned(l: seq<Area>, ph: ProgramHeader, f: AreaFlags, file: seq<Byte>, ans: Answers, y: Addr)
    requires ListWf(l) && PhWf(ph) && Loadable(ph) && !Collides(l, SegArea(ph, f)) && !FaultsIn(l, ph, file, ans)
    requires y in SegImage(ph, file, ans)
    ensures var r := Insert(l, SegArea(ph, f)); Owner(r, y) < |r|
  {
    hide IsPage, PageDown, PageUp, Owner, ListWf, Insert, Collides, BytesAt, Transferred, AreaWf;
    SegAreaWf(ph, f);
    SegmentBounds(ph);
    InSegmentIff(ph, f, y);
    InsertOwner(l, SegArea(ph, f), y);
  }

  /** One more header processed successfully. */
  lemma ProgressStep(phs: seq<ProgramHeader>, n: nat, file: seq<Byte>, answers: seq<Answers>,
                     s0: Space, mem0: Memory, s: Space, mem: Memory, s': Space, mem': Memory)
    requires n < |phs| && Progress(phs, n, file, answers, s0, mem0, s, mem) && SpaceInv(s0) && Loadable(phs[n])
    requires !Collides(s.areas, SegArea(phs[n], Permissions(phs[n])))
    requires !FaultsIn(s.areas, phs[n], file, answers[n])
    requires s'.areas == Insert(s.areas, SegArea(phs[n], Permissions(phs[n])))
    requires Extends(s0, s', Elements(LoadStarts(phs[..n])) + {SegStart(phs[n])},
                     Image(phs, file, answers, n) + SegImage(phs[n], file, answers[n]))
    requires Stored(s'.areas, s.pt, mem, s'.pt, mem', SegImage(phs[n], file, answers[n]))
    ensures Progress(phs, n + 1, file, answers, s0, mem0, s', mem')
  {
    hide IsPage, PageDown, PageUp, Owner, SpaceInv, Undoable, Stored, Extends, SegImage, Insert, Collides, AreaWf;
    hide Permissions, FaultsIn, ListWf;
    GrowStep(phs, n, file, answers, s0, mem0, s, mem, Permissions(phs[n]), s', mem');
    ExtendsHasList(s0, s, Elements(LoadStarts(phs[..n])), Image(phs, file, answers, n));
    SegAreaWf(phs[n], Permissions(phs[n]));
    forall y | y in Image(phs, file, answers, n + 1) ensures Owner(s'.areas, y) < |s'.areas| {
      if y in SegImage(phs[n], file, answers[n]) {
        SegImageOwned(s.areas, phs[n], Permissions(phs[n]), file, answers[n], y);
      } else {
        InsertOwner(s.areas, SegArea(phs[n], Permissions(phs[n])), y);
      }
    }
  }

  // ---------------------------------------------------------------------------------------------
  // Headers whose file part stays in its hull
  // ---------------------------------------------------------------------------------------------

  /** Byte `x` of a loaded segment: file contents, then zeros up to the end of its pages. */
  function SegByte(ph: ProgramHeader, file: seq<Byte>, x: Addr): Byte {
    if ph.vaddr <= x < ph.vaddr + ph.filesz && ph.offset + (x - ph.vaddr) < |file|
    then file[ph.offset + (x - ph.vaddr)] else 0
  }

  ghost predicate SegmentLoaded(ph: ProgramHeader, file: seq<Byte>, areas: seq<Area>, pt: PageTable, mem: Memory) {
    && PhWf(ph) && Loadable(ph)
    && SegArea(ph, Permissions(ph)) in areas
    && (ph.filesz > 0 ==> ph.offset + ph.filesz <= |file|)
    && forall x: Addr :: InSegment(ph, x) ==> ByteAt(pt, mem, x) == SegByte(ph, file, x)
  }

  lemma WholeFilePart(ph: ProgramHeader, file: seq<Byte>, ans: Answers)
    requires !IsShort(ph, file, ans)
    ensures |Transferred(ph, file, ans)| == ph.filesz
    ensures ph.filesz > 0 ==> ph.offset + ph.filesz <= |file|
                              && Transferred(ph, file, ans) == file[ph.offset..ph.offset + ph.filesz]
  {
  }

  lemma SegImageIs(ph: ProgramHeader, file: seq<Byte>, ans: Answers, x: Addr)
    requires !IsShort(ph, file, ans)
    ensures SegByte(ph, file, x) == if x in SegImage(ph, file, ans) then SegImage(ph, file, ans)[x] else 0
    ensures ph.filesz > 0 ==> ph.offset + ph.filesz <= |file|
  {
    hide BytesAt, Transferred;
    WholeFilePart(ph, file, ans);
  }

  /** A complete load of in-hull headers puts exactly the file image in memory. */
  lemma InHullLoads(phs: seq<ProgramHeader>, file: seq<Byte>, answers: seq<Answers>,
                    s0: Space, mem0: Memory, s: Space, mem: Memory, i: nat)
    requires Progress(phs, |phs|, file, answers, s0, mem0, s, mem) && SpaceInv(s0)
    requires AllInHull(phs, |phs|) && AllLoad(s0.areas, phs, file, answers, |phs|)
    requires i < |phs| && Loadable(phs[i])
    ensures SegmentLoaded(phs[i], file, s.areas, s.pt, mem)
  {
    hide PageDown, PageUp, IsPage, Owner, SpaceInv, Undoable, Extends, SegImage, Permissions, InSegment, ByteAt;
    hide IsRefused, IsFaulty, IsShort, SegByte, Image, AreasAfter, InHull, ImageOwned, Loadable, PhWf;
    var ph, n := phs[i], |phs|;
    SegmentsStay(s0.areas, phs, n, i);
    ExtendsHasList(s0, s, Elements(LoadStarts(phs[..n])), Image(phs, file, answers, n));
    var k: nat :| k < |s.areas| && s.areas[k] == SegArea(ph, Permissions(ph));
    SegImageIs(ph, file, answers[i], 0);
    forall x: Addr | InSegment(ph, x) ensures ByteAt(s.pt, mem, x) == SegByte(ph, file, x) {
      InSegmentIff(ph, Permissions(ph), x);
      OwnerIs(s.areas, x, k);
      ImageAt(s0.areas, phs, file, answers, n, i, x);
      SegImageIs(ph, file, answers[i], x);
      PlacedOffOld(s0.areas, phs, answers, i, x);
      UnownedIsZero(s0, mem0, x);
    }
  }

  /** In-hull headers leave every byte that was there before as it was. */
  lemma InHullKeepsBytes(phs: seq<ProgramHeader>, n: nat, file: seq<Byte>, answers: seq<Answers>,
                         s0: Space, mem0: Memory, pt': PageTable, mem': Memory)
    requires n <= |phs| == |answers| && AllWf(phs) && AllInHull(phs, n) && AllPlaced(s0.areas, phs, answers, n)
    requires Stored(s0.areas, s0.pt, mem0, pt', mem', Image(phs, file, answers, n))
    ensures SameBytes(s0.areas, s0.pt, mem0, pt', mem') && NoStray(s0, Image(phs, file, answers, n))
  {
    hide Image, Owner, ByteAt, PageDown, AllPlaced, AllInHull, AllWf;
    InHullSparesOld(s0.areas, phs, file, answers, n);
  }

  lemma OldStored(s0: Space, s: Space, added: set<Addr>, written: map<Addr, Byte>, mem0: Memory, mem: Memory)
    requires Extends(s0, s, added, written) && Stored(s.areas, s0.pt, mem0, s.pt, mem, written)
    ensures Stored(s0.areas, s0.pt, mem0, s.pt, mem, written)
  {
    hide Owner, SpaceInv, Keep, IsStray, ByteAt, OwnedByNew;
    forall y: Addr | AnonAddr(s0.areas, y) ensures AnonAddr(s.areas, y) { OldOwnerIff(s0, s, added, y); }
  }

  // ---------------------------------------------------------------------------------------------
  // The whole load
  // ---------------------------------------------------------------------------------------------

  datatype Header = Header(identifier: seq<Byte>, machine: nat, entry: Addr)

  const MAGIC: seq<Byte> := [0x7F, 0x45, 0x4C, 0x46]
  const MACHINE_TYPE: nat := 0x3E

  predicate ValidateElfHeader(h: Header) { MAGIC <= h.identifier && h.machine == MACHINE_TYPE }

  /** Answers of the file system and the heap before any segment is touched. */
  datatype Prelude = Prelude(fileExists: bool, headerRead: bool, tableAllocated: bool, tableRead: bool)

  datatype LoadResult = Loaded(entry: Addr) | Failed(error: LoadError) | Crashed

  /** The first error before any segment is touched. */
  function PreludeError(prelude: Prelude, header: Header): Option<LoadError> {
    if !prelude.fileExists then Some(FileNotFound)
    else if !prelude.headerRead then Some(IoError)
    else if !ValidateElfHeader(header) then Some(InvalidElf)
    else if !prelude.tableAllocated then Some(MemoryError)
    else if !prelude.tableRead then Some(IoError)
    else None
  }

  /** The header begins with the ELF magic number and names the x86-64 machine. */
  ghost predicate IsElf64(h: Header) {
    && |h.identifier| >= 4 && h.identifier[0] == 0x7F && h.identifier[1] == 0x45 && h.identifier[2] == 0x4C
    && h.identifier[3] == 0x46 && h.machine == 62
  }

  /** Exactly when each of the early errors is reported. */
  lemma PreludeErrorIff(prelude: Prelude, header: Header)
    ensures var r := PreludeError(prelude, header);
            var begun := prelude.fileExists && prelude.headerRead;
            && (r == Some(FileNotFound) <==> !prelude.fileExists)
            && (r == Some(InvalidElf) <==> begun && !IsElf64(header))
            && (r == Some(MemoryError) <==> begun && IsElf64(header) && !prelude.tableAllocated)
            && (r == Some(IoError) <==>
                  || (prelude.fileExists && !prelude.headerRead)
                  || (begun && IsElf64(header) && prelude.tableAllocated && !prelude.tableRead))
            && (r == None <==> begun && IsElf64(header) && prelude.tableAllocated && prelude.tableRead)
  {
    assert |header.identifier| >= 4 ==> (MAGIC <= header.identifier <==> header.identifier[..4] == MAGIC);
  }

  /** Why a load stops with an error once the headers are read, having written for `n` of them. */
  ghost predicate StopsAt(l: seq<Area>, phs: seq<ProgramHeader>, file: seq<Byte>, answers: seq<Answers>,
                          n: nat, error: LoadError)
    requires n <= |phs| == |answers| && AllWf(phs)
  {
    || (&& error == MemoryError && n < |phs| && AllLoad(l, phs, file, answers, n)
        && Loadable(phs[n]) && IsRefused(l, phs, answers, n))
    || (&& error == IoError && n > 0 && AllLoad(l, phs, file, answers, n - 1)
        && Loadable(phs[n - 1]) && !IsRefused(l, phs, answers, n - 1)
        && !IsFaulty(l, phs, file, answers, n - 1) && IsShort(phs[n - 1], file, answers[n - 1]))
  }

  lemma StopsPlaced(l: seq<Area>, phs: seq<ProgramHeader>, file: seq<Byte>, answers: seq<Answers>,
                    n: nat, error: LoadError)
    requires n <= |phs| == |answers| && AllWf(phs) && StopsAt(l, phs, file, answers, n, error)
    ensures AllPlaced(l, phs, answers, n) && !AllLoad(l, phs, file, answers, |phs|)
  {
    hide IsRefused, IsFaulty, IsShort, Loadable, PhWf;
  }

  lemma AllLoadNext(l: seq<Area>, phs: seq<ProgramHeader>, file: seq<Byte>, answers: seq<Answers>, n: nat)
    requires n < |phs| == |answers| && AllWf(phs) && AllLoad(l, phs, file, answers, n)
    ensures AllLoad(l, phs, file, answers, n + 1) <==>
            (Loadable(phs[n]) ==> && !IsRefused(l, phs, answers, n) && !IsFaulty(l, phs, file, answers, n)
                                  && !IsShort(phs[n], file, answers[n]))
  {
    hide IsRefused, IsFaulty, IsShort, Loadable, PhWf;
  }

  /** What a failed load leaves behind. */
  ghost predicate Undone(phs: seq<ProgramHeader>, n: nat, file: seq<Byte>, answers: seq<Answers>,
                         s0: Space, mem0: Memory, s: Space, mem: Memory)
    requires n <= |phs| == |answers|
  {
    && s.areas == s0.areas
    && OldPlusStray(s0, Image(phs, file, answers, n), s.pt)
    && (s == s0 <==> NoStray(s0, Image(phs, file, answers, n)))
    && Stored(s0.areas, s0.pt, mem0, s.pt, mem, Image(phs, file, answers, n))
  }

  /** Removes everything the first `n` headers added. */
  method Undo(vmm: Manager, phs: seq<ProgramHeader>, count: nat, file: seq<Byte>, answers: seq<Answers>,
              ghost n: nat, ghost s0: Space, ghost mem0: Memory)
    requires Ready(vmm) && Grown(phs, n, file, answers, s0, mem0, vmm.current.Value(), vmm.mem)
    requires count == |LoadStarts(phs[..n])|
    modifies vmm`tlb, vmm.current
    ensures Ready(vmm) && Undone(phs, n, file, answers, s0, mem0, vmm.current.Value(), vmm.mem)
  {
    hide Extends, Backed, CachedBy, SpaceInv, Undoable, Stored, NoStray, Shrunk, Image, Loadable, OldPlusStray;
    ghost var s, w := vmm.current.Value(), Image(phs, file, answers, n);
    LoadStartsPrefix(phs, n);
    assert LoadStarts(phs)[..count] == LoadStarts(phs[..n]);
    Rollback(vmm, phs, count, s0, w);
    RollbackKeepsBytes(s0, s, vmm.current.Value(), Elements(LoadStarts(phs[..n])), w, mem0, vmm.mem);
  }

  lemma UntouchedIsUndone(phs: seq<ProgramHeader>, file: seq<Byte>, answers: seq<Answers>, s: Space, mem: Memory)
    requires |phs| == |answers|
    ensures Undone(phs, 0, file, answers, s, mem, s, mem)
  {
    hide PageDown, Owner;
    StoredNothing(s.areas, s.pt, mem, map[]);
  }

  lemma UndoneInHull(phs: seq<ProgramHeader>, n: nat, file: seq<Byte>, answers: seq<Answers>,
                     s0: Space, mem0: Memory, s: Space, mem: Memory)
    requires n <= |phs| == |answers| && AllWf(phs) && AllPlaced(s0.areas, phs, answers, n)
    requires Undone(phs, n, file, answers, s0, mem0, s, mem)
    ensures AllInHull(phs, n) ==> s == s0 && SameBytes(s0.areas, s0.pt, mem0, s.pt, mem)
  {
    hide AllWf, AllPlaced, Stored, NoStray, Image, AllInHull, SameBytes;
    if AllInHull(phs, n) { InHullKeepsBytes(phs, n, file, answers, s0, mem0, s.pt, mem); }
  }

  /**
   The header has an anonymous area of whole pages around its memory part, with the permissions of its
   flags, and so has every page of it that is mapped: bit 2 is read, bit 1 is write, bit 0 is execute.
   */
  ghost predicate HasItsArea(ph: ProgramHeader, s: Space) {
    var lo, top := ph.vaddr - ph.vaddr % 4096, ph.vaddr + ph.memsz + 4095;
    var hi := top - top % 4096;
    && lo < hi
    && Area(lo, hi - lo, AreaFlags(ph.flags / 4 % 2 == 1, ph.flags / 2 % 2 == 1, ph.flags % 2 == 1, false, false),
            Anonymous) in s.areas
    && forall p :: p in s.pt && lo <= p < hi ==>
                     && s.pt[p].flags.present && s.pt[p].flags.userAccessible
                     && (s.pt[p].flags.writable <==> ph.flags / 2 % 2 == 1)
                     && (s.pt[p].flags.noExecute <==> ph.flags % 2 == 0)
  }

  lemma SegmentHasItsArea(ph: ProgramHeader, s: Space)
    requires PhWf(ph) && Loadable(ph) && SpaceInv(s) && SegArea(ph, Permissions(ph)) in s.areas
    ensures HasItsArea(ph, s)
  {
    hide SpaceInv, Permissions, Owner;
    var a := SegArea(ph, Permissions(ph));
    SegmentBounds(ph);
    PermissionsAre(ph);
    UserPageFlagsAre(Permissions(ph));
    forall p | p in s.pt && a.start <= p < a.End() ensures s.pt[p].flags == UserPageFlags(Permissions(ph)) {
      PageHasOwner(s, p);
      ContainingArea(s, p);
      assert Contains(s, p, a);
    }
  }

  /** What a complete load leaves behind. */
  ghost predicate Complete(phs: seq<ProgramHeader>, file: seq<Byte>, answers: seq<Answers>,
                           s0: Space, mem0: Memory, s: Space, mem: Memory)
    requires |phs| == |answers| && AllWf(phs)
  {
    && s.areas == AreasAfter(s0.areas, phs, |phs|)
    && (forall i :: 0 <= i < |phs| && Loadable(phs[i]) ==> HasItsArea(phs[i], s))
    && Extends(s0, s, Elements(LoadStarts(phs)), Image(phs, file, answers, |phs|))
    && Stored(s.areas, s0.pt, mem0, s.pt, mem, Image(phs, file, answers, |phs|))
    && (AllInHull(phs, |phs|) ==>
          && SameBytes(s0.areas, s0.pt, mem0, s.pt, mem)
          && NoStray(s0, Image(phs, file, answers, |phs|))
          && forall i :: 0 <= i < |phs| && Loadable(phs[i]) ==> SegmentLoaded(phs[i], file, s.areas, s.pt, mem))
  }

  lemma ProgressCompletes(phs: seq<ProgramHeader>, file: seq<Byte>, answers: seq<Answers>,
                          s0: Space, mem0: Memory, s: Space, mem: Memory)
    requires Progress(phs, |phs|, file, answers, s0, mem0, s, mem) && SpaceInv(s0)
    requires AllLoad(s0.areas, phs, file, answers, |phs|)
    ensures Complete(phs, file, answers, s0, mem0, s, mem)
  {
    hide Extends, SpaceInv, Stored, Image, AllInHull, SameBytes, NoStray, SegmentLoaded, AreasAfter, Undoable, Loadable;
    hide IsRefused, IsFaulty, IsShort, PhWf, ImageOwned, HasItsArea, Permissions;
    assert phs[..|phs|] == phs;
    forall i | 0 <= i < |phs| && Loadable(phs[i]) ensures HasItsArea(phs[i], s) {
      SegmentsStay(s0.areas, phs, |phs|, i);
      ExtendsIsSpace(s0, s, Elements(LoadStarts(phs)), Image(phs, file, answers, |phs|));
      SegmentHasItsArea(phs[i], s);
    }
    if AllInHull(phs, |phs|) {
      OldStored(s0, s, Elements(LoadStarts(phs)), Image(phs, file, answers, |phs|), mem0, mem);
      InHullKeepsBytes(phs, |phs|, file, answers, s0, mem0, s.pt, mem);
      forall i | 0 <= i < |phs| && Loadable(phs[i]) ensures SegmentLoaded(phs[i], file, s.areas, s.pt, mem) {
        InHullLoads(phs, file, answers, s0, mem0, s, mem, i);
      }
    }
  }

  /**
   Loading is all or nothing, as far as the code makes it so.  A failed load removes every area it
   added; the space is the old one exactly when the bytes written so far spared the unmapped pages of
   old areas, and memory that was there before reads as it did except where it was written to.  For
   headers whose file part stays in the pages of the segment both are unconditional, and a complete
   load then puts exactly the file image in memory.  `n` is the number of headers written for.
   */
  method Load(vmm: Manager, file: seq<Byte>, header: Header, phs: seq<ProgramHeader>,
              prelude: Prelude, answers: seq<Answers>)
    returns (r: LoadResult, ghost n: nat)
    requires Ready(vmm) && |answers| == |phs| && AllWf(phs)
    modifies vmm`used, vmm`mem, vmm`tlb, vmm.current
    ensures Ready(vmm) && n <= |phs|
    ensures r.Loaded? <==> PreludeError(prelude, header).None?
                           && AllLoad(old(vmm.current.areas), phs, file, answers, |phs|)
    ensures r.Failed? ==> if PreludeError(prelude, header).Some?
                          then r.error == PreludeError(prelude, header).value && n == 0
                          else StopsAt(old(vmm.current.areas), phs, file, answers, n, r.error)
    ensures r.Crashed? ==> && n < |phs| && AllLoad(old(vmm.current.areas), phs, file, answers, n)
                           && Loadable(phs[n]) && !IsRefused(old(vmm.current.areas), phs, answers, n)
                           && IsFaulty(old(vmm.current.areas), phs, file, answers, n) && !InHull(phs[n])
    ensures r.Failed? ==>
              && Undone(phs, n, file, answers, old(vmm.current.Value()), old(vmm.mem), vmm.current.Value(), vmm.mem)
              && (AllInHull(phs, n) ==>
                    && vmm.current.Value() == old(vmm.current.Value())
                    && SameBytes(vmm.current.areas, old(vmm.current.pt), old(vmm.mem), vmm.current.pt, vmm.mem))
    ensures r.Loaded? ==>
              && r.entry == header.entry
              && Complete(phs, file, answers, old(vmm.current.Value()), old(vmm.mem), vmm.current.Value(), vmm.mem)
  {
    hide IsPage, PageDown, PageUp, SpaceInv, Backed, Extends, Owner, CachedBy, SegmentLoaded, Collides, FaultsIn;
    hide Undoable, Loadable, PhWf, StartsAt, AllInHull, AllPlaced, AllLoad, IsShort, Stored, SameBytes, NoStray;
    hide Complete;
    hide SegImage, Permissions, Insert, Undone, AllWf, Grown, ImageOwned, OldPlusStray;
    ghost var s0, mem0 := vmm.current.Value(), vmm.mem;
    n := 0;
    UntouchedIsUndone(phs, file, answers, s0, mem0);
    NothingPlaced(s0.areas, phs, answers);
    UndoneInHull(phs, 0, file, answers, s0, mem0, s0, mem0);
    if !prelude.fileExists {
      return Failed(FileNotFound), 0;
    }
    if !prelude.headerRead {
      return Failed(IoError), 0;
    }
    if !ValidateElfHeader(header) {
      return Failed(InvalidElf), 0;
    }
    if !prelude.tableAllocated {
      return Failed(MemoryError), 0;
    }
    if !prelude.tableRead {
      return Failed(IoError), 0;
    }
    ProgressStart(phs, file, answers, s0, mem0);
    NothingLoads(s0.areas, phs, file, answers);
    var i, count := 0, 0;
    while i < |phs|
      invariant 0 <= i <= |phs| && count == |LoadStarts(phs[..i])|
      invariant vmm.current == old(vmm.current) && Ready(vmm) && SpaceInv(s0)
      invariant Progress(phs, i, file, answers, s0, mem0, vmm.current.Value(), vmm.mem)
      invariant AllLoad(s0.areas, phs, file, answers, i)
    {
      AllLoadNext(s0.areas, phs, file, answers, i);
      ghost var s, mem := vmm.current.Value(), vmm.mem;
      if !Loadable(phs[i]) {
        ProgressSkip(phs, i, file, answers, s0, mem0, s, mem);
        i := i + 1;
        continue;
      }
      LoadStartsNext(phs, i);
      ProgressParts(phs, i, file, answers, s0, mem0, s, mem);
      var segment := LoadSegment(vmm, file, phs[i], answers[i], s0, Elements(LoadStarts(phs[..i])),
                                 Image(phs, file, answers, i));
      if segment.Crash? {
        CrashIsNotLoad(s0.areas, phs, file, answers, i);
        return Crashed, i;
      }
      n := i;
      if segment.Truncated? {
        CollidesByRange(s.areas, SegArea(phs[i], Permissions(phs[i])), LoadingFlags(phs[i]));
        GrowStep(phs, i, file, answers, s0, mem0, s, mem, LoadingFlags(phs[i]), vmm.current.Value(), vmm.mem);
        count, n := count + 1, i + 1;
      }
      if !segment.Placed? {
        ghost var error := if segment.Truncated? then IoError else MemoryError;
        assert StopsAt(s0.areas, phs, file, answers, n, error);
        StopsPlaced(s0.areas, phs, file, answers, n, error);
        Undo(vmm, phs, count, file, answers, n, s0, mem0);
        UndoneInHull(phs, n, file, answers, s0, mem0, vmm.current.Value(), vmm.mem);
        return Failed(if segment.Truncated? then IoError else MemoryError), n;
      }
      ProgressStep(phs, i, file, answers, s0, mem0, s, mem, vmm.current.Value(), vmm.mem);
      count := count + 1;
      i := i + 1;
    }
    ProgressCompletes(phs, file, answers, s0, mem0, vmm.current.Value(), vmm.mem);
    return Loaded(header.entry), i;
  }

  lemma NothingPlaced(l: seq<Area>, phs: seq<ProgramHeader>, answers: seq<Answers>)
    requires |phs| == |answers| && AllWf(phs)
    ensures AllPlaced(l, phs, answers, 0)
  {
  }

  lemma NothingLoads(l: seq<Area>, phs: seq<ProgramHeader>, file: seq<Byte>, answers: seq<Answers>)
    requires |phs| == |answers| && AllWf(phs)
    ensures AllLoad(l, phs, file, answers, 0)
  {
  }

  lemma ProgressParts(phs: seq<ProgramHeader>, n: nat, file: seq<Byte>, answers: seq<Answers>,
                      s0: Space, mem0: Memory, s: Space, mem: Memory)
    requires Progress(phs, n, file, answers, s0, mem0, s, mem) && n < |phs|
    ensures PhWf(phs[n]) && Grown(phs, n, file, answers, s0, mem0, s, mem)
    ensures Extends(s0, s, Elements(LoadStarts(phs[..n])), Image(phs, file, answers, n))
    ensures s.areas == AreasAfter(s0.areas, phs, n)
  {
  }

  /** A file part that stays in its hull always has somewhere to go. */
  lemma InHullNeverFaults(l: seq<Area>, ph: ProgramHeader, file: seq<Byte>, ans: Answers)
    requires PhWf(ph) && Loadable(ph) && InHull(ph)
    ensures !FaultsIn(l, ph, file, ans)
  {
    hide IsPage, PageDown, PageUp, BytesAt, Transferred, CanWrite;
    SegmentBounds(ph);
  }

  lemma CrashIsNotLoad(l: seq<Area>, phs: seq<ProgramHeader>, file: seq<Byte>, answers: seq<Answers>, i: nat)
    requires i < |phs| == |answers| && AllWf(phs) && Loadable(phs[i]) && IsFaulty(l, phs, file, answers, i)
    ensures !AllLoad(l, phs, file, answers, |phs|) && !InHull(phs[i])
  {
    hide IsRefused, FaultsIn, IsShort, Loadable, PhWf, InHull, AreasAfter;
    if InHull(phs[i]) { InHullNeverFaults(AreasAfter(l, phs, i), phs[i], file, answers[i]); }
  }

  // ---------------------------------------------------------------------------------------------
  // A failing load that changes the space
  // ---------------------------------------------------------------------------------------------

  const READ_WRITE := AreaFlags(true, true, false, false, false)

  /** One page of memory that nobody has touched yet. */
  const UNTOUCHED := Area(2 * PAGE, PAGE, READ_WRITE, Anonymous)

  /** One byte of memory in the page before, with one file byte more than that page holds. */
  const OVERLONG := ProgramHeader(TYPE_LOAD, FLAG_READ, 0, PAGE, PAGE + 1, 1)

  const IO_FAILS := Answers(true, true, true, PAGE + 1)

  lemma OverlongFacts()
    ensures PhWf(OVERLONG) && Loadable(OVERLONG) && !InHull(OVERLONG)
    ensures SegStart(OVERLONG) == PAGE && SegEnd(OVERLONG) == 2 * PAGE && PageDown(2 * PAGE) == 2 * PAGE
  {
  }

  /** The last file byte of the segment lands in the untouched page. */
  lemma OverlongStrays(file: seq<Byte>)
    requires |file| == PAGE + 1
    ensures IsStray(Space([UNTOUCHED], map[]), Image([OVERLONG], file, [IO_FAILS], 1), 2 * PAGE)
    ensures forall y :: y in BytesAt(PAGE, Transferred(OVERLONG, file, IO_FAILS)) ==> PAGE <= y <= 2 * PAGE
  {
    hide BytesAt, PageDown;
    OverlongFacts();
    assert Image([OVERLONG], file, [IO_FAILS], 1)
           == Image([OVERLONG], file, [IO_FAILS], 0) + SegImage(OVERLONG, file, IO_FAILS);
    assert 2 * PAGE in Image([OVERLONG], file, [IO_FAILS], 1) && Owner([UNTOUCHED], 2 * PAGE) == 0;
  }

  /** The read error stops this load, and nothing before it does. */
  lemma OverlongStops(file: seq<Byte>)
    requires |file| == PAGE + 1
    ensures AllWf([OVERLONG]) && IsShort(OVERLONG, file, IO_FAILS)
    ensures !IsRefused([UNTOUCHED], [OVERLONG], [IO_FAILS], 0)
    ensures !IsFaulty([UNTOUCHED], [OVERLONG], file, [IO_FAILS], 0)
  {
    hide BytesAt, PageDown, PageUp, Transferred, Permissions;
    OverlongFacts();
    OverlongStrays(file);
    assert Owner([UNTOUCHED], 2 * PAGE) == 0;
  }

  lemma UntouchedWf()
    ensures AreaWf(UNTOUCHED) && !Collides([], UNTOUCHED) && Insert([], UNTOUCHED) == [UNTOUCHED]
  {
  }

  /** The load reports the read error, and leaves a page of the older area mapped. */
  method FailedLoadLeavesPage() returns (vmm: Manager, r: LoadResult)
    ensures r == Failed(IoError)
    ensures vmm.current.areas == [UNTOUCHED] && 2 * PAGE in vmm.current.pt
  {
    hide IsPage, PageDown, PageUp, SpaceInv, Extends, Owner, CachedBy, IsRefused, IsFaulty, Stored, Image, IsShort;
    var space := new AddressSpace();
    UntouchedWf();
    var _ := space.AddArea(UNTOUCHED, true);
    vmm := new Manager(space);
    var file: seq<Byte> := seq(PAGE + 1, _ => 0);
    var header := Header(MAGIC, MACHINE_TYPE, PAGE);
    assert [IO_FAILS][0] == IO_FAILS && [OVERLONG][0] == OVERLONG;
    OverlongStops(file);
    OverlongStrays(file);
    OverlongFacts();
    ghost var n;
    r, n := Load(vmm, file, header, [OVERLONG], Prelude(true, true, true, true), [IO_FAILS]);
  }
}
