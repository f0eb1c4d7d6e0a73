/**
 Loading one ELF segment: an anonymous area is added, the file bytes are written through
 demand-paged memory, and the final permissions are set.

 The file part is written at its address whether or not it fits the memory part.  Bytes beyond the
 pages of the segment go wherever that address leads, so the contracts say exactly which bytes are
 written (`SegImage`) and when a write faults for good (`FaultsIn`).
 */
module Segments {
  import opened Basics
  import opened Paging
  import opened Areas
  import opened VirtualMemory
  import opened Vmm
  import opened LoadedSpace

  // ---------------------------------------------------------------------------------------------
  // Writing through demand-paged memory
  // ---------------------------------------------------------------------------------------------

  ghost predicate Ready(vmm: Manager)
    reads vmm, vmm.current
  {
    vmm.Agrees() && Backed(vmm.current.Value(), vmm.used, vmm.mem)
  }

  /** Anonymous memory after a write: the written bytes, and the old ones everywhere else. */
  ghost predicate Stored(areas: seq<Area>, pt: PageTable, mem: Memory, pt': PageTable, mem': Memory,
                         w: map<Addr, Byte>)
  {
    forall y: Addr :: AnonAddr(areas, y) ==> ByteAt(pt', mem', y) == if y in w then w[y] else ByteAt(pt, mem, y)
  }

  /** The bytes as they lie in memory from `dest` on. */
  function BytesAt(dest: Addr, bytes: seq<Byte>): (m: map<Addr, Byte>)
    ensures forall y: Addr :: y in m <==> dest <= y < dest + |bytes|
    ensures forall y: Addr :: y in m ==> m[y] == bytes[y - dest]
  {
    if bytes == [] then map[]
    else BytesAt(dest, bytes[..|bytes| - 1])[dest + |bytes| - 1 := bytes[|bytes| - 1]]
  }

  lemma FreshFrameExists(used: set<Frame>)
    ensures exists f: Frame :: f !in used
  {
    var n := FrameBound(used);
    assert n !in used;
  }

  lemma {:induction false} FrameBound(s: set<Frame>) returns (n: Frame)
    ensures forall f :: f in s ==> f < n
  {
    if s == {} {
      n := 0;
    } else {
      var f :| f in s;
      var m := FrameBound(s - {f});
      n := Max(m, f + 1);
      assert forall g :: g in s ==> g == f || g in s - {f};
    }
  }

  /** Makes the page of `x` present for writing; the fault handler does it on the first touch. */
  method Touch(vmm: Manager, x: Addr, ghost b: Byte, ghost s0: Space, ghost added: set<Addr>,
               ghost written: map<Addr, Byte>)
    returns (ok: bool)
    requires Ready(vmm) && Extends(s0, vmm.current.Value(), added, written)
    modifies vmm`used, vmm`mem, vmm.current
    ensures Ready(vmm) && vmm.current.areas == old(vmm.current.areas)
    ensures ok <==> CanWrite(vmm.current.areas, x)
    ensures ok ==> PageDown(x) in vmm.current.pt
    ensures ok ==> Extends(s0, vmm.current.Value(), added, written[x := b])
    ensures SameBytes(vmm.current.areas, old(vmm.current.pt), old(vmm.mem), vmm.current.pt, vmm.mem)
  {
    hide IsPage, PageDown, PageUp, SpaceInv, Backed, Extends, ByteAt, FaultIn, FaultOutcome, FrameTaken, Owner;
    hide CachedBy, TouchedEntry;
    ghost var s := vmm.current.Value();
    var page := PageDown(x);
    if page in vmm.current.pt {
      MappedWritable(s, x);
      ExtendsMapped(s0, s, added, written, x, b);
      return vmm.current.pt[page].flags.writable;
    }
    FreshFrameExists(vmm.used);
    var f :| f !in vmm.used;
    TouchMaps(s, x, f);
    if CanWrite(s.areas, x) {
      TouchKeepsBacked(s, vmm.used, vmm.mem, x, f);
      TouchKeepsBytes(s, vmm.used, vmm.mem, x, f);
      ExtendsTouch(s0, s, added, written, x, b, f);
    }
    var outcome := vmm.PageFault(x, false, true, Some(f), true);
    return outcome == Resolved;
  }

  /** One byte stored by the kernel; it faults for good exactly outside the writable areas. */
  method Store(vmm: Manager, x: Addr, b: Byte, ghost s0: Space, ghost added: set<Addr>,
               ghost written: map<Addr, Byte>)
    returns (ok: bool)
    requires Ready(vmm) && Extends(s0, vmm.current.Value(), added, written)
    modifies vmm`used, vmm`mem, vmm.current
    ensures Ready(vmm) && vmm.current.areas == old(vmm.current.areas)
    ensures ok <==> CanWrite(vmm.current.areas, x)
    ensures ok ==> Extends(s0, vmm.current.Value(), added, written[x := b])
    ensures ok ==> Stored(vmm.current.areas, old(vmm.current.pt), old(vmm.mem), vmm.current.pt, vmm.mem, map[x := b])
  {
    hide IsPage, PageDown, PageUp, SpaceInv, Backed, Extends, ByteAt, Owner, CachedBy;
    ok := Touch(vmm, x, b, s0, added, written);
    if !ok {
      return;
    }
    ghost var s := vmm.current.Value();
    SpaceHasList(s);
    AnonByteIsPage(s, x);
    var k := FindAreaLocked(vmm.current.areas, x);
    // What lies behind a direct mapping is not part of `mem`.
    if vmm.current.areas[k].kind.Anonymous? {
      BackedPage(s, vmm.used, vmm.mem, PageDown(x));
      StoreChangesOneByte(s, vmm.used, vmm.mem, x, b);
      var frame := vmm.current.pt[PageDown(x)].frame;
      vmm.mem := vmm.mem[frame := vmm.mem[frame][x % PAGE := b]];
    }
  }

  lemma BackedPage(s: Space, used: set<Frame>, mem: Memory, p: Addr)
    requires Backed(s, used, mem) && IsAnonymousPage(s, p)
    ensures s.pt[p].frame in mem && |mem[s.pt[p].frame]| == PAGE
  {
  }

  lemma StoredTwice(areas: seq<Area>, pt: PageTable, mem: Memory, pt1: PageTable, mem1: Memory, pt2: PageTable,
                    mem2: Memory, w1: map<Addr, Byte>, w2: map<Addr, Byte>)
    requires Stored(areas, pt, mem, pt1, mem1, w1) && Stored(areas, pt1, mem1, pt2, mem2, w2)
    ensures Stored(areas, pt, mem, pt2, mem2, w1 + w2)
  {
    hide AnonAddr, ByteAt;
  }

  lemma BytesAtNext(written: map<Addr, Byte>, dest: Addr, bytes: seq<Byte>, i: nat)
    requires i < |bytes|
    ensures BytesAt(dest, bytes[..i + 1]) == BytesAt(dest, bytes[..i]) + map[dest + i := bytes[i]]
    ensures written + BytesAt(dest, bytes[..i + 1]) == (written + BytesAt(dest, bytes[..i]))[dest + i := bytes[i]]
  {
    hide BytesAt;
    assert BytesAt(dest, bytes[..i + 1]) == BytesAt(dest, bytes[..i]) + map[dest + i := bytes[i]];
  }

  /** A block of bytes lands where it should, and no other anonymous byte changes. */
  method WriteBytes(vmm: Manager, dest: Addr, bytes: seq<Byte>, ghost s0: Space, ghost added: set<Addr>,
                    ghost written: map<Addr, Byte>)
    returns (ok: bool)
    requires Ready(vmm) && Extends(s0, vmm.current.Value(), added, written)
    modifies vmm`used, vmm`mem, vmm.current
    ensures Ready(vmm) && vmm.current.areas == old(vmm.current.areas)
    ensures ok <==> forall y :: y in BytesAt(dest, bytes) ==> CanWrite(vmm.current.areas, y)
    ensures ok ==> Extends(s0, vmm.current.Value(), added, written + BytesAt(dest, bytes))
    ensures ok ==> Stored(vmm.current.areas, old(vmm.current.pt), old(vmm.mem), vmm.current.pt, vmm.mem,
                          BytesAt(dest, bytes))
  {
    hide IsPage, PageDown, PageUp, SpaceInv, Backed, Extends, Owner, CachedBy, Stored, CanWrite, BytesAt;
    var i := 0;
    StoredNothing(vmm.current.areas, vmm.current.pt, vmm.mem, BytesAt(dest, bytes[..0]));
    assert written + BytesAt(dest, bytes[..0]) == written;
    while i < |bytes|
      invariant 0 <= i <= |bytes|
      invariant vmm.current == old(vmm.current) && vmm.current.areas == old(vmm.current.areas)
      invariant Ready(vmm) && Extends(s0, vmm.current.Value(), added, written + BytesAt(dest, bytes[..i]))
      invariant forall y :: y in BytesAt(dest, bytes[..i]) ==> CanWrite(vmm.current.areas, y)
      invariant Stored(vmm.current.areas, old(vmm.current.pt), old(vmm.mem), vmm.current.pt, vmm.mem,
                       BytesAt(dest, bytes[..i]))
    {
      ghost var pt, mem := vmm.current.pt, vmm.mem;
      BytesAtNext(written, dest, bytes, i);
      ok := Store(vmm, dest + i, bytes[i], s0, added, written + BytesAt(dest, bytes[..i]));
      if !ok {
        assert dest + i in BytesAt(dest, bytes);
        return;
      }
      StoredTwice(vmm.current.areas, old(vmm.current.pt), old(vmm.mem), pt, mem, vmm.current.pt, vmm.mem,
                  BytesAt(dest, bytes[..i]), map[dest + i := bytes[i]]);
      i := i + 1;
    }
    assert bytes[..i] == bytes;
    return true;
  }

  lemma StoredNothing(areas: seq<Area>, pt: PageTable, mem: Memory, w: map<Addr, Byte>)
    requires w == map[]
    ensures Stored(areas, pt, mem, pt, mem, w)
  {
  }

  // ---------------------------------------------------------------------------------------------
  // Loading one segment
  // ---------------------------------------------------------------------------------------------

  datatype LoadError = FileNotFound | IoError | InvalidElf | MemoryError

  /** Answers of the allocators and the file system while one segment is loaded. */
  datatype Answers = Answers(vmaAllocated: bool, nodeAllocated: bool, readFails: bool, bytesRead: nat)

  /** The bytes `ReadFile` transfers: a prefix of what was asked for. */
  function Transferred(ph: ProgramHeader, file: seq<Byte>, ans: Answers): (r: seq<Byte>)
    ensures |r| <= ph.filesz && |r| <= ans.bytesRead
    ensures |r| > 0 ==> ph.offset + |r| <= |file| && r == file[ph.offset..ph.offset + |r|]
  {
    if ph.offset >= |file| then []
    else file[ph.offset..ph.offset + Min(Min(ph.filesz, ans.bytesRead), |file| - ph.offset)]
  }

  predicate IsShort(ph: ProgramHeader, file: seq<Byte>, ans: Answers) {
    ph.filesz > 0 && (ans.readFails || |Transferred(ph, file, ans)| != ph.filesz)
  }

  /**
   A read is short exactly when there is something to read and the call fails, delivers less than was
   asked for, or the file ends before.
   */
  lemma ShortReadIff(ph: ProgramHeader, file: seq<Byte>, ans: Answers)
    ensures IsShort(ph, file, ans) <==>
            ph.filesz > 0 && (ans.readFails || ans.bytesRead < ph.filesz || |file| < ph.offset + ph.filesz)
  {
  }

  function Zeros(ph: ProgramHeader): seq<Byte> {
    seq(if ph.memsz > ph.filesz then ph.memsz - ph.filesz else 0, _ => 0)
  }

  /** Every byte the loader writes for one segment: what it reads, then zeros up to the memory size. */
  function SegImage(ph: ProgramHeader, file: seq<Byte>, ans: Answers): map<Addr, Byte> {
    BytesAt(ph.vaddr, Transferred(ph, file, ans))
    + (if IsShort(ph, file, ans) then map[] else BytesAt(ph.vaddr + ph.filesz, Zeros(ph)))
  }

  predicate InSegment(ph: ProgramHeader, y: Addr) { SegStart(ph) <= y < SegEnd(ph) }

  /** Some file byte goes to an address that neither the segment nor a writable area contains. */
  ghost predicate FaultsIn(areas: seq<Area>, ph: ProgramHeader, file: seq<Byte>, ans: Answers) {
    exists y :: y in BytesAt(ph.vaddr, Transferred(ph, file, ans)) && !InSegment(ph, y) && !CanWrite(areas, y)
  }

  lemma SegAreaWf(ph: ProgramHeader, f: AreaFlags)
    requires PhWf(ph) && Loadable(ph)
    ensures AreaWf(SegArea(ph, f)) && SegArea(ph, f).size > 0
  {
    hide IsPage, PageDown, PageUp;
    SegmentBounds(ph);
  }

  lemma InSegmentIff(ph: ProgramHeader, f: AreaFlags, y: Addr)
    requires PhWf(ph) && Loadable(ph)
    ensures InSegment(ph, y) <==> IsAddrInArea(SegArea(ph, f), y)
  {
    hide IsPage, PageDown, PageUp;
    SegmentBounds(ph);
  }

  lemma InsertMembers(l: seq<Area>, a: Area, b: Area)
    ensures b in Insert(l, a) <==> b in l || b == a
  {
    var n := InsertPos(l, a);
    assert l == l[..n] + l[n..];
  }

  /** Owners after an insertion: the new area owns its range, everything else is as before. */
  lemma InsertOwner(l: seq<Area>, a: Area, y: Addr)
    requires ListWf(l) && AreaWf(a) && !Collides(l, a)
    ensures var r := Insert(l, a);
            && (Owner(r, y) < |r| <==> Owner(l, y) < |l| || IsAddrInArea(a, y))
            && (IsAddrInArea(a, y) ==> Owner(l, y) == |l| && r[Owner(r, y)] == a)
            && (Owner(l, y) < |l| ==> r[Owner(r, y)] == l[Owner(l, y)])
  {
    hide IsPage, AreaWf, Owner, ListWf, Insert;
    var r := Insert(l, a);
    InsertKeepsListWf(l, a);
    if Owner(l, y) < |l| {
      OwnerAfterInsert(l, a, y, Owner(l, y));
      OutsideSegment(l, a, y);
    } else if IsAddrInArea(a, y) {
      InsertAt(l, a, InsertPos(l, a));
      OwnerIs(r, y, InsertPos(l, a));
    } else if Owner(r, y) < |r| {
      InsertMembers(l, a, r[Owner(r, y)]);
    }
  }

  lemma OutsideSegment(l: seq<Area>, a: Area, y: Addr)
    requires !Collides(l, a) && Owner(l, y) < |l|
    ensures !IsAddrInArea(a, y)
  {
    hide Owner;
    assert !AreasOverlap(l[Owner(l, y)], a);
  }

  lemma InsertPosByStart(l: seq<Area>, a: Area, f: AreaFlags)
    ensures InsertPos(l, a.(flags := f)) == InsertPos(l, a)
  {
  }

  lemma InsertReflagged(l: seq<Area>, a: Area, f: AreaFlags)
    ensures InsertPos(l, a) < |Insert(l, a)| && Insert(l, a)[InsertPos(l, a)] == a
    ensures Insert(l, a)[InsertPos(l, a) := a.(flags := f)] == Insert(l, a.(flags := f))
  {
    InsertPosByStart(l, a, f);
  }

  lemma CollidesByRange(l: seq<Area>, a: Area, f: AreaFlags)
    ensures Collides(l, a.(flags := f)) <==> Collides(l, a)
  {
    if Collides(l, a) {
      var i :| 0 <= i < |l| && AreasOverlap(l[i], a);
      assert AreasOverlap(l[i], a.(flags := f));
    }
    if Collides(l, a.(flags := f)) {
      var i :| 0 <= i < |l| && AreasOverlap(l[i], a.(flags := f));
      assert AreasOverlap(l[i], a);
    }
  }

  /** Writing faults exactly when it would fault without the segment's own area, outside the segment. */
  lemma FaultsInIff(l: seq<Area>, ph: ProgramHeader, f: AreaFlags, file: seq<Byte>, ans: Answers)
    requires ListWf(l) && PhWf(ph) && Loadable(ph) && f.writable && !Collides(l, SegArea(ph, f))
    ensures (exists y :: y in BytesAt(ph.vaddr, Transferred(ph, file, ans)) && !CanWrite(Insert(l, SegArea(ph, f)), y))
            <==> FaultsIn(l, ph, file, ans)
  {
    hide IsPage, PageDown, PageUp, Owner, ListWf, Insert, BytesAt, Transferred, AreaWf, InSegment;
    SegAreaWf(ph, f);
    forall y: Addr ensures CanWrite(Insert(l, SegArea(ph, f)), y) <==> InSegment(ph, y) || CanWrite(l, y) {
      InsertOwner(l, SegArea(ph, f), y);
      InSegmentIff(ph, f, y);
    }
  }

  lemma AddedKeepsBacked(s: Space, used: set<Frame>, mem: Memory, a: Area)
    requires SpaceInv(s) && Backed(s, used, mem) && AreaWf(a) && !Collides(s.areas, a)
    ensures Backed(s.(areas := Insert(s.areas, a)), used, mem)
  {
    hide SpaceInv, Backed, AreaWf, Insert, KeepsFrames;
    AddKeepsSpaceInv(s, a, true);
    FewerPagesBacked(s, s.(areas := Insert(s.areas, a)), used, mem);
  }

  /** Giving a segment its final flags changes no byte and no other area. */
  lemma ReflagSegment(s: Space, used: set<Frame>, mem: Memory, k: nat, f: AreaFlags)
    requires SpaceInv(s) && Backed(s, used, mem) && k < |s.areas| && s.areas[k].size > 0
    ensures var s' := UpdateIn(s, s.areas[k].start, f);
            && Owner(s.areas, s.areas[k].start) == k
            && s'.areas == s.areas[k := s.areas[k].(flags := f)]
            && Backed(s', used, mem)
            && forall y: Addr :: ByteAt(s'.pt, mem, y) == ByteAt(s.pt, mem, y)
                                 && (AnonAddr(s.areas, y) <==> AnonAddr(s'.areas, y))
  {
    hide IsPage, PageDown, PageUp, Owner, SpaceInv, AreaWf, ListWf;
    SpaceHasList(s);
    OwnerIs(s.areas, s.areas[k].start, k);
    var s' := UpdateIn(s, s.areas[k].start, f);
    UpdateKeepsSpaceInv(s, s.areas[k].start, f);
    FewerPagesBacked(s, s', used, mem);
    SameOwners(s.areas, s'.areas);
  }

  lemma SameOwners(l: seq<Area>, r: seq<Area>)
    requires |l| == |r| && forall i :: 0 <= i < |l| ==> l[i].start == r[i].start && l[i].size == r[i].size
    ensures forall y: Addr :: Owner(l, y) == Owner(r, y)
  {
    if l != [] {
      SameOwners(l[1..], r[1..]);
    }
  }

  datatype Filling = Filled | ShortRead | Faulted

  lemma ImageParts(written: map<Addr, Byte>, ph: ProgramHeader, file: seq<Byte>, ans: Answers)
    ensures IsShort(ph, file, ans) ==> SegImage(ph, file, ans) == BytesAt(ph.vaddr, Transferred(ph, file, ans))
    ensures !IsShort(ph, file, ans) ==>
              && SegImage(ph, file, ans)
                 == BytesAt(ph.vaddr, Transferred(ph, file, ans)) + BytesAt(ph.vaddr + ph.filesz, Zeros(ph))
              && written + SegImage(ph, file, ans)
                 == written + BytesAt(ph.vaddr, Transferred(ph, file, ans)) + BytesAt(ph.vaddr + ph.filesz, Zeros(ph))
  {
    hide BytesAt, Transferred, IsShort, Zeros;
    var a, b := BytesAt(ph.vaddr, Transferred(ph, file, ans)), BytesAt(ph.vaddr + ph.filesz, Zeros(ph));
    assert a + map[] == a && written + (a + b) == written + a + b;
  }

  /** Copies the file part, then clears the rest of the segment. */
  method FillSegment(vmm: Manager, file: seq<Byte>, ph: ProgramHeader, ans: Answers,
                     ghost k: nat, ghost s0: Space, ghost added: set<Addr>, ghost written: map<Addr, Byte>)
    returns (r: Filling)
    requires Ready(vmm) && Extends(s0, vmm.current.Value(), added, written)
    requires PhWf(ph) && Loadable(ph) && k < |vmm.current.areas| && vmm.current.areas[k].flags.writable
    requires vmm.current.areas[k] == SegArea(ph, vmm.current.areas[k].flags)
    modifies vmm`used, vmm`mem, vmm.current
    ensures Ready(vmm) && vmm.current.areas == old(vmm.current.areas)
    ensures r.Faulted? <==>
              exists y :: y in BytesAt(ph.vaddr, Transferred(ph, file, ans)) && !CanWrite(vmm.current.areas, y)
    ensures !r.Faulted? ==>
              && (r.ShortRead? <==> IsShort(ph, file, ans))
              && Extends(s0, vmm.current.Value(), added, written + SegImage(ph, file, ans))
              && Stored(vmm.current.areas, old(vmm.current.pt), old(vmm.mem), vmm.current.pt, vmm.mem,
                        SegImage(ph, file, ans))
  {
    hide IsPage, PageDown, PageUp, SpaceInv, Backed, Extends, Owner, CachedBy, Stored, CanWrite, SegImage, BytesAt;
    ghost var data := BytesAt(ph.vaddr, Transferred(ph, file, ans));
    ImageParts(written, ph, file, ans);
    if ph.filesz > 0 {
      var bytes := Transferred(ph, file, ans);
      var copied := WriteBytes(vmm, ph.vaddr, bytes, s0, added, written);
      if !copied {
        return Faulted;
      }
      if ans.readFails || |bytes| != ph.filesz {
        return ShortRead;
      }
    } else {
      assert written + data == written;
      StoredNothing(vmm.current.areas, vmm.current.pt, vmm.mem, data);
    }
    ghost var pt, mem := vmm.current.pt, vmm.mem;
    if ph.memsz > ph.filesz {
      ZerosWritable(vmm.current.Value(), k, ph);
      var _ := WriteBytes(vmm, ph.vaddr + ph.filesz, Zeros(ph), s0, added, written + data);
    } else {
      assert written + data + BytesAt(ph.vaddr + ph.filesz, Zeros(ph)) == written + data;
      StoredNothing(vmm.current.areas, pt, mem, BytesAt(ph.vaddr + ph.filesz, Zeros(ph)));
    }
    StoredTwice(vmm.current.areas, old(vmm.current.pt), old(vmm.mem), pt, mem, vmm.current.pt, vmm.mem,
                data, BytesAt(ph.vaddr + ph.filesz, Zeros(ph)));
    return Filled;
  }

  lemma ZerosWritable(s: Space, k: nat, ph: ProgramHeader)
    requires SpaceInv(s) && PhWf(ph) && Loadable(ph) && k < |s.areas| && s.areas[k].flags.writable
    requires s.areas[k] == SegArea(ph, s.areas[k].flags)
    ensures forall y :: y in BytesAt(ph.vaddr + ph.filesz, Zeros(ph)) ==> CanWrite(s.areas, y)
  {
    hide IsPage, PageDown, PageUp, ListWf, Owner, BytesAt, SpaceInv;
    SpaceHasList(s);
    SegmentBounds(ph);
    forall y | y in BytesAt(ph.vaddr + ph.filesz, Zeros(ph)) ensures CanWrite(s.areas, y) {
      OwnerIs(s.areas, y, k);
    }
  }

  datatype Segment = Placed | Refused | Truncated | Crash

  /** The flags a segment has while it is written. */
  function LoadingFlags(ph: ProgramHeader): AreaFlags { Permissions(ph).(writable := true) }

  /**
   Loads a segment into the current space: the area is inserted, the image is written, the final
   permissions are set.  A refused segment changes nothing; a truncated one leaves its area behind.
   */
  method LoadSegment(vmm: Manager, file: seq<Byte>, ph: ProgramHeader, ans: Answers,
                     ghost s0: Space, ghost added: set<Addr>, ghost written: map<Addr, Byte>)
    returns (r: Segment)
    requires Ready(vmm) && Extends(s0, vmm.current.Value(), added, written)
    requires PhWf(ph) && Loadable(ph)
    modifies vmm`used, vmm`mem, vmm`tlb, vmm.current
    ensures Ready(vmm)
    ensures r.Refused? <==> !ans.vmaAllocated || !ans.nodeAllocated
                            || Collides(old(vmm.current.areas), SegArea(ph, Permissions(ph)))
    ensures r.Refused? ==> vmm.current.Value() == old(vmm.current.Value()) && vmm.mem == old(vmm.mem)
    ensures !r.Refused? ==> (r.Crash? <==> FaultsIn(old(vmm.current.areas), ph, file, ans))
    ensures r.Truncated? ==> IsShort(ph, file, ans)
    ensures r.Placed? ==> !IsShort(ph, file, ans)
    ensures r.Placed? || r.Truncated? ==>
              && vmm.current.areas == Insert(old(vmm.current.areas),
                                             SegArea(ph, if r.Placed? then Permissions(ph) else LoadingFlags(ph)))
              && Extends(s0, vmm.current.Value(), added + {SegStart(ph)}, written + SegImage(ph, file, ans))
              && Stored(vmm.current.areas, old(vmm.current.pt), old(vmm.mem), vmm.current.pt, vmm.mem,
                        SegImage(ph, file, ans))
  {
    hide IsPage, PageDown, PageUp, SpaceInv, Backed, Extends, ByteAt, Owner, CachedBy, Permissions, AreaWf, Insert;
    hide UpdateIn, SegImage, AnonAddr, BytesAt, Transferred, FaultsIn, IsShort, CanWrite, Collides, ListWf;
    SegmentBounds(ph);
    var originalFlags := Permissions(ph);
    var loadingFlags := originalFlags.(writable := true);
    var vma := SegArea(ph, loadingFlags);
    CollidesByRange(vmm.current.areas, vma, originalFlags);
    if !ans.vmaAllocated {
      return Refused;
    }
    SegAreaWf(ph, loadingFlags);
    ghost var s := vmm.current.Value();
    var res := vmm.current.AddArea(vma, ans.nodeAllocated);
    if res.Err? {
      return Refused;
    }
    SpaceHasList(s);
    AddedKeepsBacked(s, vmm.used, vmm.mem, vma);
    ExtendsAdd(s0, s, added, written, vma);
    FaultsInIff(s.areas, ph, loadingFlags, file, ans);
    InsertReflagged(s.areas, vma, originalFlags);
    ghost var now := added + {SegStart(ph)};
    ghost var k := InsertPos(s.areas, vma);
    var filling := FillSegment(vmm, file, ph, ans, k, s0, now, written);
    if filling.Faulted? {
      return Crash;
    }
    if filling.ShortRead? {
      return Truncated;
    }
    if loadingFlags.writable != originalFlags.writable {
      ghost var t := vmm.current.Value();
      ReflagSegment(t, vmm.used, vmm.mem, k, originalFlags);
      ExtendsUpdate(s0, t, now, written + SegImage(ph, file, ans), vma.start, originalFlags);
      var restored := vmm.UpdateAreaFlags(vmm.current, vma.start, originalFlags);
      StoredReflagged(t, vmm.current.Value(), s.pt, old(vmm.mem), vmm.mem, SegImage(ph, file, ans));
      assert restored; // the area is there, so the code's error branch is never taken
    }
    return Placed;
  }

  lemma StoredReflagged(t: Space, t': Space, pt: PageTable, mem: Memory, mem': Memory, w: map<Addr, Byte>)
    requires Stored(t.areas, pt, mem, t.pt, mem', w)
    requires forall y: Addr :: ByteAt(t'.pt, mem', y) == ByteAt(t.pt, mem', y)
                               && (AnonAddr(t.areas, y) <==> AnonAddr(t'.areas, y))
    ensures Stored(t'.areas, pt, mem, t'.pt, mem', w)
  {
    hide ByteAt, AnonAddr;
  }
}
