/**
 The address-space object and the virtual memory manager, as code that updates them in place.
 Every method is tied to the operation of the same meaning in `VirtualMemory`.
 */
module Vmm {
  import opened Basics
  import Bits
  import opened Paging
  import opened Areas
  import opened VirtualMemory

  type Byte = bv8

  type Memory = map<Frame, seq<Byte>>

  const ZERO_PAGE: seq<Byte> := seq(PAGE, _ => 0)

  /** The loops that follow a change to the owner of `ptr` stay inside the address range. */
  lemma FlushableRange(tlb: PageTable, s: Space, t: Space, ptr: Addr)
    requires SpaceInv(s) && SpaceInv(t) && CachedBy(tlb, s.pt)
    ensures PageTableWf(tlb) && ListWf(t.areas)
    ensures Owner(t.areas, ptr) < |t.areas| ==>
              var a := t.areas[Owner(t.areas, ptr)];
              IsPage(a.start) && IsPage(a.size) && a.start + a.size + PAGE <= Bits.WORD
  {
  }

  lemma SpaceHasList(s: Space)
    requires SpaceInv(s)
    ensures ListWf(s.areas)
  {
  }

  lemma SearchEndBound(hi: Addr)
    requires 0 < hi
    ensures SearchEnd(hi) <= hi
  {
  }

  /** A gap has no owner, so the flag update made before the insertion finds nothing to change. */
  lemma GapIsFree(s: Space, g: Addr, size: nat, lo: Addr, hi: Addr, f: AreaFlags)
    requires size > 0 && IsGap(s.areas, g, size, lo, hi)
    ensures Owner(s.areas, g) == |s.areas| && UpdateIn(s, g, f) == s
    ensures !Collides(s.areas, Area(g, size, f, Anonymous))
  {
  }

  /** An address that is taken has an owner that starts there, and the new area overlaps it. */
  lemma TakenCollides(s: Space, x: Addr, size: nat, f: AreaFlags)
    requires ListWf(s.areas) && size > 0 && IsTaken(s.areas, Ok(x))
    ensures Owner(s.areas, x) < |s.areas| && s.areas[Owner(s.areas, x)].start == x
    ensures Collides(UpdateIn(s, x, f).areas, Area(x, size, f, Anonymous))
  {
    hide IsPage, AreaWf, Owner, Reflagged;
    var i: nat :| i < |s.areas| && s.areas[i].start == x && s.areas[i].size > 0;
    OwnerIs(s.areas, x, i);
    assert AreasOverlap(UpdateIn(s, x, f).areas[i], Area(x, size, f, Anonymous));
  }

  class AddressSpace {
    var areas: seq<Area>
    var pt: PageTable

    ghost function Value(): Space
      reads this
    {
      Space(areas, pt)
    }

    ghost predicate Valid()
      reads this
    {
      SpaceInv(Value())
    }

    constructor ()
      ensures Valid() && Value() == Space([], map[])
    {
      areas, pt := [], map[];
    }

    method AddArea(vma: Area, nodeAllocated: bool) returns (r: Result<()>)
      requires Valid() && AreaWf(vma)
      modifies this
      ensures Valid() && Value() == AddTo(old(Value()), vma, nodeAllocated)
      ensures r.Ok? <==> !Collides(old(areas), vma) && nodeAllocated
      ensures r.Err? ==> r.error == if Collides(old(areas), vma) then InvalidArgument else OutOfMemory
    {
      AddKeepsSpaceInv(Value(), vma, nodeAllocated);
      var l := Areas.AddArea(areas, vma, nodeAllocated);
      if l.Err? {
        return Err(l.error);
      }
      areas := l.value;
      return Ok(());
    }

    /** Returns the range the caller must flush from the TLB. */
    method RmArea(ptr: Addr) returns (r: Result<(Addr, nat)>)
      requires Valid()
      modifies this
      ensures Valid() && Value() == RemoveFrom(old(Value()), ptr)
      ensures r.Ok? <==> Owner(old(areas), ptr) < |old(areas)|
      ensures r.Ok? ==> var a := old(areas)[Owner(old(areas), ptr)]; r.value == (a.start, a.size)
      ensures r.Err? ==> r.error == NotFound
    {
      hide IsPage, PageDown, PageUp, PageInRange, Owner, SpaceInv, ListWf, Reflagged, Without, KeepsFrames;
      hide UserPageFlags;
      RemoveKeepsSpaceInv(Value(), ptr);
      FlushableRange(pt, Value(), Value(), ptr);
      var k := FindAreaLocked(areas, ptr);
      if k == |areas| {
        return Err(NotFound);
      }
      var vma := areas[k];
      pt := UnmapRange(pt, vma.start, vma.size);
      areas := areas[..k] + areas[k + 1..];
      return Ok((vma.start, vma.size));
    }

    method UpdateAreaFlags(ptr: Addr, f: AreaFlags) returns (r: Result<(Addr, nat)>)
      requires Valid()
      modifies this
      ensures Valid() && Value() == UpdateIn(old(Value()), ptr, f)
      ensures r.Ok? <==> Owner(old(areas), ptr) < |old(areas)| && old(areas)[Owner(old(areas), ptr)].start == ptr
      ensures r.Ok? ==> r.value == (ptr, old(areas)[Owner(old(areas), ptr)].size)
      ensures r.Err? ==> r.error == if Owner(old(areas), ptr) == |old(areas)| then NotFound else InvalidArgument
    {
      hide IsPage, PageDown, PageUp, PageInRange, Owner, SpaceInv, ListWf, Reflagged, Without, KeepsFrames;
      hide UserPageFlags;
      UpdateKeepsSpaceInv(Value(), ptr, f);
      FlushableRange(pt, Value(), Value(), ptr);
      var k := FindAreaLocked(areas, ptr);
      if k == |areas| {
        return Err(NotFound);
      }
      var vma := areas[k];
      if vma.start != ptr {
        return Err(InvalidArgument);
      }
      var reflagged := SetRangeFlags(pt, vma.start, vma.size, UserPageFlags(f));
      assert reflagged == Reflagged(pt, vma.start, vma.End(), UserPageFlags(f));
      areas, pt := areas[k := vma.(flags := f)], reflagged;
      return Ok((vma.start, vma.size));
    }
  }

  class Manager {
    var current: AddressSpace
    var tlb: PageTable
    var used: set<Frame>
    var mem: Memory

    /** Area list, page table and TLB of the current space agree. */
    ghost predicate Agrees()
      reads this, current
    {
      current.Valid() && CachedBy(tlb, current.pt)
    }

    constructor (space: AddressSpace)
      requires space.Valid()
      ensures current == space && Agrees() && used == {} && mem == map[]
    {
      current, tlb, used, mem := space, map[], {}, map[];
    }

    method SwitchAddrSpace(space: AddressSpace)
      requires space.Valid()
      modifies this`current, this`tlb
      ensures current == space && Agrees()
    {
      current, tlb := space, map[];
    }

    method RmArea(space: AddressSpace, ptr: Addr) returns (ok: bool)
      requires Agrees() && space.Valid()
      modifies this`tlb, space
      ensures Agrees() && space.Valid()
      ensures space.Value() == RemoveFrom(old(space.Value()), ptr)
      ensures tlb == Flushed(old(tlb), old(space.Value()), ptr)
      ensures ok <==> Owner(old(space.areas), ptr) < |old(space.areas)|
    {
      hide IsPage, PageDown, PageUp, PageInRange, SpaceInv, Owner, RemoveFrom;
      FlushableRange(tlb, current.Value(), space.Value(), ptr);
      FlushSuffices(tlb, current.Value(), ptr, AreaFlags(true, true, true, true, true));
      FlushIsSubset(tlb, space.Value(), ptr);
      var hint := space.RmArea(ptr);
      if hint.Err? {
        return false;
      }
      tlb := InvalidateRange(tlb, hint.value.0, hint.value.1);
      return true;
    }

    method UpdateAreaFlags(space: AddressSpace, ptr: Addr, f: AreaFlags) returns (ok: bool)
      requires Agrees() && space.Valid()
      modifies this`tlb, space
      ensures Agrees() && space.Valid()
      ensures space.Value() == UpdateIn(old(space.Value()), ptr, f)
      ensures ok <==> Owner(old(space.areas), ptr) < |old(space.areas)|
                      && old(space.areas)[Owner(old(space.areas), ptr)].start == ptr
      ensures tlb == if ok then Flushed(old(tlb), old(space.Value()), ptr) else old(tlb)
    {
      hide IsPage, PageDown, PageUp, PageInRange, SpaceInv, Owner;
      FlushableRange(tlb, current.Value(), space.Value(), ptr);
      FlushSuffices(tlb, current.Value(), ptr, f);
      FlushIsSubset(tlb, space.Value(), ptr);
      var hint := space.UpdateAreaFlags(ptr, f);
      if hint.Err? {
        return false;
      }
      tlb := InvalidateRange(tlb, hint.value.0, hint.value.1);
      return true;
    }

    /** `PageFaultHandler` with the two area handlers; the allocator's answers are parameters. */
    method PageFault(x: Addr, present: bool, write: bool, frame: Option<Frame>, tables: bool)
      returns (outcome: Outcome)
      requires Agrees()
      modifies this`used, this`mem, current
      ensures Agrees()
      ensures outcome == FaultOutcome(old(current.Value()), x, present, write, frame, tables)
      ensures outcome == Resolved <==> IsResolvable(old(current.Value()), x, present, write, frame, tables)
      ensures outcome == Resolved ==>
                exists a :: MapsPageOf(old(current.Value()), current.Value(), x, a, frame)
      ensures current.Value() == FaultIn(old(current.Value()), x, present, write, frame, tables)
      ensures FrameTaken(old(current.Value()), x, present, write, frame) ==>
                used == old(used) + {frame.value} && mem == old(mem)[frame.value := ZERO_PAGE]
      ensures !FrameTaken(old(current.Value()), x, present, write, frame) ==>
                used == old(used) && mem == old(mem)
    {
      hide IsPage, PageDown, PageUp, SpaceInv, Owner, UserPageFlags, ListWf, IsResolvable, MapsPageOf;
      SpaceHasList(current.Value());
      FaultResolvedIff(current.Value(), x, present, write, frame, tables);
      FaultMapsExactly(current.Value(), x, present, write, frame, tables);
      FaultKeepsSpaceInv(current.Value(), x, present, write, frame, tables);
      FaultOnlyAdds(current.Value(), x, present, write, frame, tables);
      var k := FindAreaLocked(current.areas, x);
      if k == |current.areas| || present {
        return Unresolvable;
      }
      var vma := current.areas[k];
      if write && !vma.flags.writable {
        return Panic;
      }
      var physPage: Frame;
      if vma.kind.Anonymous? {
        if frame.None? {
          return Unresolvable;
        }
        physPage := frame.value;
        used := used + {physPage};
        mem := mem[physPage := ZERO_PAGE];
      } else {
        physPage := PageDown(vma.kind.physStart + (x - vma.start));
      }
      var page := PageDown(x);
      if page in current.pt || !tables {
        return Unresolvable;
      }
      current.pt := current.pt[page := Entry(physPage, UserPageFlags(vma.flags))];
      return Resolved;
    }

    /**
     Gap search, flag update and insertion of an anonymous area, in the order of the code.  If nothing
     misleads the search, the lowest gap becomes an area, an overlap is never reported, and an error
     changes nothing.  If an empty area misleads it, the flags of a present area are overwritten and
     the insertion is refused.
     */
    method AllocAnonymous(space: AddressSpace, size: nat, f: AreaFlags, lo: Addr, hi: Addr,
                          vmaAllocated: bool, nodeAllocated: bool)
      returns (r: Result<Addr>)
      requires Agrees() && space.Valid()
      requires IsPage(size) && lo + PAGE <= Bits.WORD && 0 < hi <= KERNEL_START
      modifies this`tlb, space
      ensures Agrees() && space.Valid()
      ensures var gap := GapScan(old(space.areas), 0, size, PageUp(lo), SearchEnd(hi), PageUp(lo));
              space.Value() == if gap.Err? || !vmaAllocated then old(space.Value())
                               else AddTo(UpdateIn(old(space.Value()), gap.value, f),
                                          Area(gap.value, size, f, Anonymous), nodeAllocated)
      ensures size > 0 && !Misled(old(space.areas), 0, size, PageUp(lo), SearchEnd(hi)) ==>
                && (r == Err(NotFound)
                    <==> forall g: Addr :: !IsGap(old(space.areas), g, size, PageUp(lo), SearchEnd(hi)))
                && r != Err(InvalidArgument)
                && (r == Err(OutOfMemory) ==> !vmaAllocated || !nodeAllocated)
                && (r.Err? ==> space.Value() == old(space.Value()) && tlb == old(tlb))
                && (r.Ok? ==> IsGap(old(space.areas), r.value, size, PageUp(lo), SearchEnd(hi))
                              && NoGapBelow(old(space.areas), size, PageUp(lo), SearchEnd(hi), r.value)
                              && space.areas == Insert(old(space.areas), Area(r.value, size, f, Anonymous))
                              && space.pt == old(space.pt) && tlb == old(tlb))
      ensures size > 0 && Misled(old(space.areas), 0, size, PageUp(lo), SearchEnd(hi)) && vmaAllocated ==>
                && r == Err(InvalidArgument)
                && var gap := GapScan(old(space.areas), 0, size, PageUp(lo), SearchEnd(hi), PageUp(lo));
                   IsTaken(old(space.areas), gap) && space.Value() == UpdateIn(old(space.Value()), gap.value, f)
    {
      hide PageUp, PageDown, IsPage, Misled, SpaceInv, Owner, UpdateIn, KeepsFrames, CachedBy, Insert, IsGap;
      ghost var s := space.Value();
      SpaceHasList(s);
      SearchEndBound(hi);
      GapScanBounds(space.areas, 0, size, PageUp(lo), SearchEnd(hi), PageUp(lo));
      var gap := FindGap(space.areas, size, lo, hi);
      if gap.Err? {
        return Err(gap.error);
      }
      if !vmaAllocated {
        return Err(OutOfMemory);
      }
      var vma := Area(gap.value, size, f, Anonymous);
      if size > 0 {
        if Misled(s.areas, 0, size, PageUp(lo), SearchEnd(hi)) {
          TakenCollides(s, gap.value, size, f);
        } else {
          GapIsFree(s, gap.value, size, PageUp(lo), SearchEnd(hi), f);
        }
      }
      var _ := UpdateAreaFlags(space, gap.value, f);
      var added := space.AddArea(vma, nodeAllocated);
      if added.Err? {
        return Err(added.error);
      }
      return Ok(gap.value);
    }
  }
}
