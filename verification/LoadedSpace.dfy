/**
 What a partly loaded program looks like: program headers, memory as the program sees it, and an
 address space that has grown by new areas and by the pages the load has touched.
 */
module LoadedSpace {
  import opened Basics
  import Bits
  import opened Paging
  import opened Areas
  import opened VirtualMemory
  import opened Vmm

  // ---------------------------------------------------------------------------------------------
  // Program headers
  // ---------------------------------------------------------------------------------------------

  const TYPE_LOAD: nat := 1
  const FLAG_EXEC: nat := 1
  const FLAG_WRITE: nat := 2
  const FLAG_READ: nat := 4

  datatype ProgramHeader = ProgramHeader(
    ptype: nat, flags: nat, offset: nat, vaddr: Addr, filesz: nat, memsz: nat)

  predicate Loadable(ph: ProgramHeader) { ph.ptype == TYPE_LOAD && ph.memsz != 0 }

  function SegStart(ph: ProgramHeader): Addr { PageDown(ph.vaddr) }

  function SegEnd(ph: ProgramHeader): Addr { PageUp(ph.vaddr + ph.memsz) }

  function Permissions(ph: ProgramHeader): AreaFlags {
    AreaFlags(Bits.And(ph.flags, FLAG_READ) != 0, Bits.And(ph.flags, FLAG_WRITE) != 0,
              Bits.And(ph.flags, FLAG_EXEC) != 0, false, false)
  }

  /** Bit 2 of the header flags is read, bit 1 is write and bit 0 is execute. */
  lemma PermissionsAre(ph: ProgramHeader)
    ensures Permissions(ph)
            == AreaFlags(ph.flags / 4 % 2 == 1, ph.flags / 2 % 2 == 1, ph.flags % 2 == 1, false, false)
  {
    hide Bits.And;
    Bits.BitTest(ph.flags, 2);
    Bits.BitTest(ph.flags, 1);
    Bits.BitTest(ph.flags, 0);
    assert Bits.Pow2(0) == 1 && Bits.Pow2(1) == 2 && Bits.Pow2(2) == 4;
  }

  /** The area a segment ends up with. */
  function SegArea(ph: ProgramHeader, f: AreaFlags): Area
    requires PhWf(ph) && Loadable(ph)
  {
    SegmentBounds(ph);
    Area(SegStart(ph), SegEnd(ph) - SegStart(ph), f, Anonymous)
  }

  /** Neither the memory part nor the file part reaches beyond the user half. */
  predicate PhWf(ph: ProgramHeader) {
    Loadable(ph) ==> ph.vaddr + ph.memsz <= KERNEL_START && ph.vaddr + ph.filesz <= KERNEL_START
  }

  /** The file part stays in the pages of the segment; a file part within the memory part does. */
  predicate InHull(ph: ProgramHeader) { Loadable(ph) ==> ph.vaddr + ph.filesz <= SegEnd(ph) }

  lemma FileWithinMemoryIsInHull(ph: ProgramHeader)
    requires PhWf(ph) && ph.filesz <= ph.memsz
    ensures InHull(ph)
  {
    if Loadable(ph) { SegmentBounds(ph); }
  }

  lemma SegmentBounds(ph: ProgramHeader)
    requires PhWf(ph) && Loadable(ph)
    ensures IsPage(SegStart(ph)) && IsPage(SegEnd(ph)) && SegEnd(ph) <= KERNEL_START
    ensures SegStart(ph) <= ph.vaddr && ph.vaddr + ph.memsz <= SegEnd(ph)
    ensures SegStart(ph) < SegEnd(ph) && IsPage(SegEnd(ph) - SegStart(ph))
  {
  }

  // ---------------------------------------------------------------------------------------------
  // Memory as the program sees it
  // ---------------------------------------------------------------------------------------------

  /** A byte of anonymous memory: zero until its page is first touched. */
  function ByteAt(pt: PageTable, mem: Memory, x: Addr): Byte {
    var p := PageDown(x);
    if p in pt && pt[p].frame in mem && |mem[pt[p].frame]| == PAGE then mem[pt[p].frame][x % PAGE] else 0
  }

  ghost predicate AnonAddr(areas: seq<Area>, x: Addr) {
    Owner(areas, x) < |areas| && areas[Owner(areas, x)].kind.Anonymous?
  }

  /** Every anonymous page has a frame of its own. */
  ghost predicate Backed(s: Space, used: set<Frame>, mem: Memory) {
    && (forall p :: IsAnonymousPage(s, p) ==>
          s.pt[p].frame in used && s.pt[p].frame in mem && |mem[s.pt[p].frame]| == PAGE)
    && (forall p, q :: IsAnonymousPage(s, p) && IsAnonymousPage(s, q) && p != q ==>
          s.pt[p].frame != s.pt[q].frame)
  }

  ghost predicate SameBytes(areas: seq<Area>, pt: PageTable, mem: Memory, pt': PageTable, mem': Memory) {
    forall y: Addr :: AnonAddr(areas, y) ==> ByteAt(pt', mem', y) == ByteAt(pt, mem, y)
  }

  lemma AnonByteIsPage(s: Space, y: Addr)
    requires SpaceInv(s)
    ensures AnonAddr(s.areas, y) <==> AnonAddr(s.areas, PageDown(y))
    ensures PageDown(y) in s.pt ==> (AnonAddr(s.areas, y) <==> IsAnonymousPage(s, PageDown(y)))
  {
    hide IsPage, PageDown, PageUp;
    var k, j := Owner(s.areas, y), Owner(s.areas, PageDown(y));
    if k < |s.areas| {
      PageInArea(s.areas[k], y);
      OwnerIs(s.areas, PageDown(y), k);
    } else if j < |s.areas| {
      PageInArea(s.areas[j], y);
    }
  }

  /** A store to `x` does not fault for good: some area contains it and is writable. */
  ghost predicate CanWrite(areas: seq<Area>, x: Addr) {
    Owner(areas, x) < |areas| && areas[Owner(areas, x)].flags.writable
  }

  /** The page table entry a first write to `x` creates. */
  function TouchedEntry(s: Space, x: Addr, f: Frame): Entry
    requires Owner(s.areas, x) < |s.areas|
  {
    var a := s.areas[Owner(s.areas, x)];
    Entry(if a.kind.Anonymous? then f else DirectFrame(a, x), UserPageFlags(a.flags))
  }

  function Touched(s: Space, x: Addr, f: Frame): Space
    requires Owner(s.areas, x) < |s.areas|
  {
    s.(pt := s.pt[PageDown(x) := TouchedEntry(s, x, f)])
  }

  lemma TouchMaps(s: Space, x: Addr, f: Frame)
    requires PageDown(x) !in s.pt
    ensures FaultOutcome(s, x, false, true, Some(f), true) == Resolved <==> CanWrite(s.areas, x)
    ensures CanWrite(s.areas, x) ==>
              && (FrameTaken(s, x, false, true, Some(f)) <==> AnonAddr(s.areas, x))
              && FaultIn(s, x, false, true, Some(f), true) == Touched(s, x, f)
    ensures !CanWrite(s.areas, x) ==>
              && !FrameTaken(s, x, false, true, Some(f))
              && FaultIn(s, x, false, true, Some(f), true) == s
  {
    hide PageDown, Owner;
  }

  /** The entry of a present page allows writing exactly when the area does. */
  lemma MappedWritable(s: Space, x: Addr)
    requires SpaceInv(s) && PageDown(x) in s.pt
    ensures Owner(s.areas, x) < |s.areas|
    ensures s.pt[PageDown(x)].flags.writable <==> CanWrite(s.areas, x)
  {
    hide IsPage, PageDown, PageUp, SpaceInv, Owner;
    SpaceHasList(s);
    PageHasOwner(s, PageDown(x));
    PageInArea(s.areas[Owner(s.areas, PageDown(x))], x);
    OwnerIs(s.areas, x, Owner(s.areas, PageDown(x)));
  }

  lemma TouchKeepsBacked(s: Space, used: set<Frame>, mem: Memory, x: Addr, f: Frame)
    requires SpaceInv(s) && Backed(s, used, mem) && f !in used && CanWrite(s.areas, x) && PageDown(x) !in s.pt
    ensures AnonAddr(s.areas, x) ==> Backed(Touched(s, x, f), used + {f}, mem[f := ZERO_PAGE])
    ensures !AnonAddr(s.areas, x) ==> Backed(Touched(s, x, f), used, mem)
  {
    hide IsPage, PageDown, PageUp, SpaceInv, Owner, TouchedEntry;
    AnonByteIsPage(s, x);
    if AnonAddr(s.areas, x) {
      TouchedFrame(s, x, f);
      NewPageBacked(s, used, mem, PageDown(x), TouchedEntry(s, x, f));
    } else {
      OtherPageBacked(s, used, mem, PageDown(x), TouchedEntry(s, x, f));
    }
  }

  lemma TouchedFrame(s: Space, x: Addr, f: Frame)
    requires AnonAddr(s.areas, x)
    ensures TouchedEntry(s, x, f).frame == f
  {
  }

  /** A page that is not anonymous does not matter. */
  lemma OtherPageBacked(s: Space, used: set<Frame>, mem: Memory, page: Addr, e: Entry)
    requires Backed(s, used, mem) && page !in s.pt && !AnonAddr(s.areas, page)
    ensures Backed(s.(pt := s.pt[page := e]), used, mem)
  {
    hide Owner;
    FewerPagesBacked(s, s.(pt := s.pt[page := e]), used, mem);
  }

  /** An anonymous page with a frame of its own. */
  lemma NewPageBacked(s: Space, used: set<Frame>, mem: Memory, page: Addr, e: Entry)
    requires Backed(s, used, mem) && page !in s.pt && e.frame !in used
    ensures Backed(s.(pt := s.pt[page := e]), used + {e.frame}, mem[e.frame := ZERO_PAGE])
  {
    hide IsAnonymousPage;
    var s' := s.(pt := s.pt[page := e]);
    forall p | p != page && IsAnonymousPage(s', p) ensures p in s.pt && IsAnonymousPage(s, p) {
      AnonymousElsewhere(s, page, e, p);
    }
  }

  lemma AnonymousElsewhere(s: Space, page: Addr, e: Entry, p: Addr)
    requires p != page && IsAnonymousPage(s.(pt := s.pt[page := e]), p)
    ensures p in s.pt && IsAnonymousPage(s, p)
  {
  }

  lemma FewerPagesBacked(s: Space, s': Space, used: set<Frame>, mem: Memory)
    requires Backed(s, used, mem) && KeepsFrames(s, s')
    ensures Backed(s', used, mem)
  {
    hide IsAnonymousPage;
  }

  /** A first touch changes no byte: the new page reads as the zeros it stood for. */
  lemma TouchKeepsBytes(s: Space, used: set<Frame>, mem: Memory, x: Addr, f: Frame)
    requires SpaceInv(s) && Backed(s, used, mem) && f !in used && CanWrite(s.areas, x) && PageDown(x) !in s.pt
    ensures AnonAddr(s.areas, x) ==> SameBytes(s.areas, s.pt, mem, Touched(s, x, f).pt, mem[f := ZERO_PAGE])
    ensures !AnonAddr(s.areas, x) ==> SameBytes(s.areas, s.pt, mem, Touched(s, x, f).pt, mem)
  {
    hide IsPage, PageDown, PageUp, SpaceInv, Owner, ByteAt, TouchedEntry;
    var e := TouchedEntry(s, x, f);
    if AnonAddr(s.areas, x) {
      TouchedFrame(s, x, f);
      forall y | AnonAddr(s.areas, y)
        ensures ByteAt(s.pt[PageDown(x) := e], mem[f := ZERO_PAGE], y) == ByteAt(s.pt, mem, y)
      {
        TouchKeepsByte(s, used, mem, PageDown(x), e, y);
      }
    } else {
      forall y | AnonAddr(s.areas, y) ensures ByteAt(s.pt[PageDown(x) := e], mem, y) == ByteAt(s.pt, mem, y) {
        OtherPage(s, x, y);
        ByteElsewhere(s.pt, mem, PageDown(x), e, y);
      }
    }
  }

  /** Anonymous and other bytes never share a page. */
  lemma OtherPage(s: Space, x: Addr, y: Addr)
    requires SpaceInv(s) && !AnonAddr(s.areas, x) && AnonAddr(s.areas, y)
    ensures PageDown(x) != PageDown(y)
  {
    hide IsPage, PageDown, PageUp, SpaceInv, Owner;
    AnonByteIsPage(s, x);
    AnonByteIsPage(s, y);
  }

  lemma ByteElsewhere(pt: PageTable, mem: Memory, page: Addr, e: Entry, y: Addr)
    requires PageDown(y) != page
    ensures ByteAt(pt[page := e], mem, y) == ByteAt(pt, mem, y)
  {
  }

  lemma TouchKeepsByte(s: Space, used: set<Frame>, mem: Memory, page: Addr, e: Entry, y: Addr)
    requires SpaceInv(s) && Backed(s, used, mem) && e.frame !in used && page !in s.pt && AnonAddr(s.areas, y)
    ensures ByteAt(s.pt[page := e], mem[e.frame := ZERO_PAGE], y) == ByteAt(s.pt, mem, y)
  {
    hide IsPage, PageDown, PageUp, SpaceInv, Owner;
    AnonByteIsPage(s, y);
  }

  /** A store changes one byte of anonymous memory and no other. */
  lemma StoreChangesOneByte(s: Space, used: set<Frame>, mem: Memory, x: Addr, b: Byte)
    requires SpaceInv(s) && Backed(s, used, mem) && IsAnonymousPage(s, PageDown(x))
    ensures var f := s.pt[PageDown(x)].frame;
            var mem' := mem[f := mem[f][x % PAGE := b]];
            && Backed(s, used, mem')
            && ByteAt(s.pt, mem', x) == b
            && forall y: Addr :: AnonAddr(s.areas, y) && y != x ==> ByteAt(s.pt, mem', y) == ByteAt(s.pt, mem, y)
  {
    hide SpaceInv, Owner;
    var f := s.pt[PageDown(x)].frame;
    var mem' := mem[f := mem[f][x % PAGE := b]];
    forall y | AnonAddr(s.areas, y) && y != x ensures ByteAt(s.pt, mem', y) == ByteAt(s.pt, mem, y) {
      AnonByteIsPage(s, y);
    }
  }

  // ---------------------------------------------------------------------------------------------
  // What has been added so far
  // ---------------------------------------------------------------------------------------------

  predicate IsNew(a: Area, added: set<Addr>) { a.size > 0 && a.start in added }

  /** The areas that were there before, in their order. */
  function Keep(l: seq<Area>, added: set<Addr>): seq<Area> {
    if l == [] then [] else (if IsNew(l[0], added) then [] else [l[0]]) + Keep(l[1..], added)
  }

  /** A page of an old area that was not mapped before and has been written to. */
  ghost predicate IsStray(s0: Space, written: map<Addr, Byte>, p: Addr) {
    p !in s0.pt && exists y :: y in written && PageDown(y) == p && Owner(s0.areas, y) < |s0.areas|
  }

  /** Everything written to an old area went to pages that were mapped before. */
  ghost predicate NoStray(s0: Space, written: map<Addr, Byte>) {
    forall y :: y in written && Owner(s0.areas, y) < |s0.areas| ==> PageDown(y) in s0.pt
  }

  lemma NoStrayIff(s0: Space, written: map<Addr, Byte>)
    ensures NoStray(s0, written) <==> forall p :: !IsStray(s0, written, p)
  {
    hide Owner, PageDown;
    if !NoStray(s0, written) {
      var y :| y in written && Owner(s0.areas, y) < |s0.areas| && PageDown(y) !in s0.pt;
      assert IsStray(s0, written, PageDown(y));
    }
  }

  /**
   `s` is `s0` plus areas starting at `added`, plus pages of those areas, plus the stray pages of the
   addresses written so far.
   */
  ghost predicate Extends(s0: Space, s: Space, added: set<Addr>, written: map<Addr, Byte>) {
    && SpaceInv(s)
    && Keep(s.areas, added) == s0.areas
    && (forall p :: p in s0.pt ==> p in s.pt && s.pt[p] == s0.pt[p])
    && (forall p :: IsStray(s0, written, p) ==> p in s.pt)
    && (forall p :: p in s.pt ==> ((p in s0.pt || IsStray(s0, written, p)) <==> !OwnedByNew(s, p, added)))
  }

  ghost predicate OwnedByNew(s: Space, p: Addr, added: set<Addr>) {
    Owner(s.areas, p) < |s.areas| && IsNew(s.areas[Owner(s.areas, p)], added)
  }

  lemma {:induction false} KeepConcat(l: seq<Area>, r: seq<Area>, added: set<Addr>)
    ensures Keep(l + r, added) == Keep(l, added) + Keep(r, added)
  {
    if l == [] {
      assert l + r == r;
    } else {
      assert (l + r)[1..] == l[1..] + r;
      KeepConcat(l[1..], r, added);
    }
  }

  lemma {:induction false} KeepAll(l: seq<Area>, added: set<Addr>)
    requires forall i :: 0 <= i < |l| ==> !IsNew(l[i], added)
    ensures Keep(l, added) == l
  {
    if l != [] { KeepAll(l[1..], added); }
  }

  lemma {:induction false} KeepSame(l: seq<Area>, s: set<Addr>, t: set<Addr>)
    requires forall i :: 0 <= i < |l| ==> (IsNew(l[i], s) <==> IsNew(l[i], t))
    ensures Keep(l, s) == Keep(l, t)
  {
    if l != [] { KeepSame(l[1..], s, t); }
  }

  /** Splitting a list around position `k`: a new area there does not count. */
  lemma KeepAround(l: seq<Area>, k: nat, added: set<Addr>)
    requires k < |l| && IsNew(l[k], added)
    ensures Keep(l, added) == Keep(l[..k], added) + Keep(l[k + 1..], added)
  {
    assert l == l[..k] + ([l[k]] + l[k + 1..]);
    KeepConcat(l[..k], [l[k]] + l[k + 1..], added);
    assert ([l[k]] + l[k + 1..])[1..] == l[k + 1..];
  }

  lemma KeepRemove(l: seq<Area>, k: nat, added: set<Addr>)
    requires k < |l| && IsNew(l[k], added)
    ensures Keep(l[..k] + l[k + 1..], added) == Keep(l, added)
  {
    KeepAround(l, k, added);
    KeepConcat(l[..k], l[k + 1..], added);
  }

  lemma KeepUpdate(l: seq<Area>, k: nat, f: AreaFlags, added: set<Addr>)
    requires k < |l| && IsNew(l[k], added)
    ensures Keep(l[k := l[k].(flags := f)], added) == Keep(l, added)
  {
    var r := l[k := l[k].(flags := f)];
    KeepAround(l, k, added);
    KeepAround(r, k, added);
    assert r[..k] == l[..k] && r[k + 1..] == l[k + 1..];
  }

  lemma KeepInsert(l: seq<Area>, a: Area, added: set<Addr>)
    requires a.size > 0 && forall i :: 0 <= i < |l| ==> !IsNew(l[i], {a.start})
    ensures Keep(Insert(l, a), added + {a.start}) == Keep(l, added)
  {
    hide Keep;
    var n, r := InsertPos(l, a), Insert(l, a);
    assert r[n] == a && r[..n] == l[..n] && r[n + 1..] == l[n..] && l == l[..n] + l[n..];
    KeepAround(r, n, added + {a.start});
    KeepConcat(l[..n], l[n..], added + {a.start});
    KeepSame(l, added, added + {a.start});
  }

  lemma ExtendsItself(s: Space)
    requires SpaceInv(s)
    ensures Extends(s, s, {}, map[])
  {
    KeepAll(s.areas, {});
  }

  /** The old pages with their entries, and the stray ones. */
  ghost predicate OldPlusStray(s0: Space, written: map<Addr, Byte>, pt: PageTable) {
    && (forall p :: p in pt <==> p in s0.pt || IsStray(s0, written, p))
    && (forall p :: p in s0.pt ==> pt[p] == s0.pt[p])
  }

  /** Such a page table is the old one exactly when nothing strayed. */
  lemma SameUnlessStray(s0: Space, written: map<Addr, Byte>, pt: PageTable)
    requires OldPlusStray(s0, written, pt)
    ensures pt == s0.pt <==> NoStray(s0, written)
  {
    hide IsStray, NoStray;
    NoStrayIff(s0, written);
    if NoStray(s0, written) {
      assert pt == s0.pt;
    } else {
      var p :| IsStray(s0, written, p);
      StrayIsNew(s0, written, p);
    }
  }

  lemma StrayIsNew(s0: Space, written: map<Addr, Byte>, p: Addr)
    requires IsStray(s0, written, p)
    ensures p !in s0.pt
  {
  }

  lemma NothingOwnedByNew(s: Space, added: set<Addr>, p: Addr)
    requires forall i :: 0 <= i < |s.areas| ==> !IsNew(s.areas[i], added)
    ensures !OwnedByNew(s, p, added)
  {
    hide Owner, IsNew;
  }

  /** Nothing new left: the areas are the old ones, and the space is the old one unless a page went astray. */
  lemma RolledBack(s0: Space, s: Space, added: set<Addr>, written: map<Addr, Byte>)
    requires Extends(s0, s, added, written)
    requires forall i :: 0 <= i < |s.areas| ==> !IsNew(s.areas[i], added)
    ensures s.areas == s0.areas && OldPlusStray(s0, written, s.pt)
    ensures s == s0 <==> NoStray(s0, written)
  {
    hide SpaceInv, IsStray, NoStray, Keep, OwnedByNew, IsNew;
    KeepAll(s.areas, added);
    forall p | p in s.pt ensures !OwnedByNew(s, p, added) { NothingOwnedByNew(s, added, p); }
    SameUnlessStray(s0, written, s.pt);
  }

  lemma ExtendsAdd(s0: Space, s: Space, added: set<Addr>, written: map<Addr, Byte>, a: Area)
    requires Extends(s0, s, added, written) && AreaWf(a) && a.size > 0 && !Collides(s.areas, a)
    ensures Extends(s0, s.(areas := Insert(s.areas, a)), added + {a.start}, written)
    ensures a.start !in added || forall i :: 0 <= i < |s.areas| ==> !IsNew(s.areas[i], {a.start})
  {
    hide IsPage, AreaWf, SpaceInv, Owner, Keep, Insert, IsStray;
    assert ListWf(s.areas) by { SpaceHasList(s); }
    var s' := s.(areas := Insert(s.areas, a));
    AddKeepsSpaceInv(s, a, true);
    NoEqualStart(s.areas, a);
    KeepInsert(s.areas, a, added);
    forall p | p in s.pt ensures OwnedByNew(s', p, added + {a.start}) <==> OwnedByNew(s, p, added) {
      PageHasOwner(s, p);
      OwnerAfterInsert(s.areas, a, p, Owner(s.areas, p));
    }
  }

  lemma NoEqualStart(l: seq<Area>, a: Area)
    requires a.size > 0 && !Collides(l, a)
    ensures forall i :: 0 <= i < |l| ==> !IsNew(l[i], {a.start})
  {
    forall i | 0 <= i < |l| ensures !IsNew(l[i], {a.start}) { assert !AreasOverlap(l[i], a); }
  }

  lemma PageHasOwner(s: Space, p: Addr)
    requires SpaceInv(s) && p in s.pt
    ensures Owner(s.areas, p) < |s.areas| && MappedFor(s, p, Owner(s.areas, p))
  {
    var k: nat :| k < |s.areas| && MappedFor(s, p, k);
    OwnerIs(s.areas, p, k);
  }

  lemma {:induction false} KeptIff(l: seq<Area>, added: set<Addr>, a: Area)
    ensures a in Keep(l, added) <==> a in l && !IsNew(a, added)
  {
    if l != [] {
      KeptIff(l[1..], added, a);
      assert l == [l[0]] + l[1..];
    }
  }

  lemma KeptFromOld(s0: Space, s: Space, added: set<Addr>, k: nat)
    requires Keep(s.areas, added) == s0.areas && k < |s0.areas|
    ensures s0.areas[k] in s.areas && !IsNew(s0.areas[k], added)
  {
    KeptIff(s.areas, added, s0.areas[k]);
  }

  /** An address has an old owner exactly when its owner now is not new. */
  lemma OldOwnerIff(s0: Space, s: Space, added: set<Addr>, x: Addr)
    requires SpaceInv(s) && Keep(s.areas, added) == s0.areas
    ensures Owner(s0.areas, x) < |s0.areas|
            <==> Owner(s.areas, x) < |s.areas| && !IsNew(s.areas[Owner(s.areas, x)], added)
    ensures Owner(s0.areas, x) < |s0.areas| ==> s0.areas[Owner(s0.areas, x)] == s.areas[Owner(s.areas, x)]
  {
    hide IsPage, Keep, Owner, SpaceInv;
    SpaceHasList(s);
    var k, j := Owner(s.areas, x), Owner(s0.areas, x);
    if j < |s0.areas| {
      KeptFromOld(s0, s, added, j);
      var i: nat :| i < |s.areas| && s.areas[i] == s0.areas[j];
      OwnerIs(s.areas, x, i);
    }
    if k < |s.areas| {
      KeptIff(s.areas, added, s.areas[k]);
      if !IsNew(s.areas[k], added) {
        var i: nat :| i < |s0.areas| && s0.areas[i] == s.areas[k];
        assert IsAddrInArea(s0.areas[i], x);
      }
    }
  }

  lemma StrayAdd(s0: Space, written: map<Addr, Byte>, x: Addr, b: Byte, p: Addr)
    ensures IsStray(s0, written[x := b], p)
            <==> IsStray(s0, written, p) || (p == PageDown(x) && p !in s0.pt && Owner(s0.areas, x) < |s0.areas|)
  {
    hide Owner, PageDown;
    if IsStray(s0, written, p) {
      var y :| y in written && PageDown(y) == p && Owner(s0.areas, y) < |s0.areas|;
      assert y in written[x := b];
    }
    if p == PageDown(x) && p !in s0.pt && Owner(s0.areas, x) < |s0.areas| { assert x in written[x := b]; }
  }

  lemma PageOwner(s0: Space, s: Space, added: set<Addr>, x: Addr)
    requires SpaceInv(s) && Keep(s.areas, added) == s0.areas && Owner(s.areas, x) < |s.areas|
    ensures OwnedByNew(s, PageDown(x), added) <==> Owner(s0.areas, x) == |s0.areas|
  {
    hide IsPage, PageDown, PageUp, Owner, SpaceInv, Keep;
    SpaceHasList(s);
    OwnerOfPage(s.areas, x);
    OldOwnerIff(s0, s, added, x);
  }

  /** Writing to a page that is mapped. */
  lemma ExtendsMapped(s0: Space, s: Space, added: set<Addr>, written: map<Addr, Byte>, x: Addr, b: Byte)
    requires Extends(s0, s, added, written) && Owner(s.areas, x) < |s.areas| && PageDown(x) in s.pt
    ensures Extends(s0, s, added, written[x := b])
  {
    hide PageDown, Owner, SpaceInv, Keep, IsStray, OwnedByNew;
    PageOwner(s0, s, added, x);
    forall p ensures IsStray(s0, written[x := b], p) <==> IsStray(s0, written, p) {
      StrayAdd(s0, written, x, b, p);
    }
  }

  /** The first write to a page. */
  lemma ExtendsTouch(s0: Space, s: Space, added: set<Addr>, written: map<Addr, Byte>, x: Addr, b: Byte, f: Frame)
    requires Extends(s0, s, added, written) && CanWrite(s.areas, x) && PageDown(x) !in s.pt
    ensures Extends(s0, Touched(s, x, f), added, written[x := b])
  {
    hide PageDown, Owner, SpaceInv, Keep, IsStray, TouchedEntry;
    var s' := Touched(s, x, f);
    TouchMaps(s, x, f);
    FaultKeepsSpaceInv(s, x, false, true, Some(f), true);
    PageOwner(s0, s, added, x);
    forall p
      ensures IsStray(s0, written[x := b], p)
              <==> IsStray(s0, written, p) || (p == PageDown(x) && p !in s0.pt && Owner(s0.areas, x) < |s0.areas|)
    {
      StrayAdd(s0, written, x, b, p);
    }
    assert forall p :: OwnedByNew(s', p, added) <==> OwnedByNew(s, p, added);
  }

  lemma OwnerOfPage(l: seq<Area>, x: Addr)
    requires ListWf(l) && Owner(l, x) < |l|
    ensures Owner(l, PageDown(x)) == Owner(l, x)
  {
    hide IsPage, PageDown, PageUp, Owner;
    PageInArea(l[Owner(l, x)], x);
    OwnerIs(l, PageDown(x), Owner(l, x));
  }

  /** Re-flagging a new area. */
  lemma ExtendsUpdate(s0: Space, s: Space, added: set<Addr>, written: map<Addr, Byte>, ptr: Addr, f: AreaFlags)
    requires Extends(s0, s, added, written)
    requires Owner(s.areas, ptr) < |s.areas| && s.areas[Owner(s.areas, ptr)].start == ptr
    requires IsNew(s.areas[Owner(s.areas, ptr)], added)
    ensures Extends(s0, UpdateIn(s, ptr, f), added, written)
  {
    hide Keep, IsPage, PageDown, PageUp, Owner, SpaceInv, PageInRange, IsStray, OwnedByNew, UpdateIn;
    UpdateKeepsSpaceInv(s, ptr, f);
    UpdateNewAreas(s, added, ptr, f);
    forall p | p in s.pt
      ensures OwnedByNew(UpdateIn(s, ptr, f), p, added) <==> OwnedByNew(s, p, added)
      ensures !OwnedByNew(s, p, added) ==> UpdateIn(s, ptr, f).pt[p] == s.pt[p]
    {
      UpdateNewPage(s, added, ptr, f, p);
    }
  }

  lemma UpdateNewAreas(s: Space, added: set<Addr>, ptr: Addr, f: AreaFlags)
    requires Owner(s.areas, ptr) < |s.areas| && s.areas[Owner(s.areas, ptr)].start == ptr
    requires IsNew(s.areas[Owner(s.areas, ptr)], added)
    ensures Keep(UpdateIn(s, ptr, f).areas, added) == Keep(s.areas, added)
    ensures UpdateIn(s, ptr, f).pt.Keys == s.pt.Keys
  {
    hide Owner, Keep;
    KeepUpdate(s.areas, Owner(s.areas, ptr), f, added);
  }

  lemma UpdateNewPage(s: Space, added: set<Addr>, ptr: Addr, f: AreaFlags, p: Addr)
    requires SpaceInv(s) && p in s.pt
    requires Owner(s.areas, ptr) < |s.areas| && s.areas[Owner(s.areas, ptr)].start == ptr
    requires IsNew(s.areas[Owner(s.areas, ptr)], added)
    ensures p in UpdateIn(s, ptr, f).pt
    ensures OwnedByNew(UpdateIn(s, ptr, f), p, added) <==> OwnedByNew(s, p, added)
    ensures !OwnedByNew(s, p, added) ==> UpdateIn(s, ptr, f).pt[p] == s.pt[p]
  {
    hide IsPage, PageDown, PageUp, Owner, SpaceInv, PageInRange;
    UpdateKeepsPage(s, ptr, f, p);
    OutsideNewArea(s, p, Owner(s.areas, ptr));
  }

  /** A page of another area lies outside area `k`. */
  lemma OutsideNewArea(s: Space, p: Addr, k: nat)
    requires SpaceInv(s) && p in s.pt && k < |s.areas|
    ensures Owner(s.areas, p) < |s.areas|
    ensures Owner(s.areas, p) == k <==> PageInRange(p, s.areas[k].start, s.areas[k].End())
  {
    hide IsPage, PageDown, PageUp, Owner, PageInRange;
    PageHasOwner(s, p);
    PageInArea(s.areas[k], p);
    if IsAddrInArea(s.areas[k], p) { OwnerIs(s.areas, p, k); }
  }

  lemma RemoveNewPage(s: Space, added: set<Addr>, ptr: Addr, p: Addr)
    requires SpaceInv(s) && p in s.pt && Owner(s.areas, ptr) < |s.areas|
    ensures var s' := RemoveFrom(s, ptr);
            && (p in s'.pt <==> Owner(s.areas, p) != Owner(s.areas, ptr))
            && (p in s'.pt ==> s'.pt[p] == s.pt[p] && (OwnedByNew(s', p, added) <==> OwnedByNew(s, p, added)))
  {
    hide IsPage, PageDown, PageUp, Owner, SpaceInv, PageInRange, MappedFor;
    OutsideNewArea(s, p, Owner(s.areas, ptr));
    if p in RemoveFrom(s, ptr).pt { RemoveKeepsPage(s, ptr, p); }
  }

  lemma RemoveNewAreas(s: Space, added: set<Addr>, ptr: Addr)
    requires Owner(s.areas, ptr) < |s.areas| && IsNew(s.areas[Owner(s.areas, ptr)], added)
    ensures Keep(RemoveFrom(s, ptr).areas, added) == Keep(s.areas, added)
    ensures RemoveFrom(s, ptr).pt.Keys <= s.pt.Keys
  {
    KeepRemove(s.areas, Owner(s.areas, ptr), added);
  }

  /** Removing a new area. */
  lemma ExtendsRemove(s0: Space, s: Space, added: set<Addr>, written: map<Addr, Byte>, ptr: Addr)
    requires Extends(s0, s, added, written)
    requires Owner(s.areas, ptr) < |s.areas| && IsNew(s.areas[Owner(s.areas, ptr)], added)
    ensures Extends(s0, RemoveFrom(s, ptr), added, written)
  {
    hide Owner, SpaceInv, Keep, RemoveFrom, IsStray;
    RemoveKeepsSpaceInv(s, ptr);
    RemoveNewAreas(s, added, ptr);
    forall p | p in s.pt
      ensures var s' := RemoveFrom(s, ptr);
              && (p in s'.pt <==> Owner(s.areas, p) != Owner(s.areas, ptr))
              && (p in s'.pt ==> s'.pt[p] == s.pt[p] && (OwnedByNew(s', p, added) <==> OwnedByNew(s, p, added)))
    {
      RemoveNewPage(s, added, ptr, p);
    }
  }
}
