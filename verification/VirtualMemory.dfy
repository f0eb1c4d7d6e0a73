/**
 Address spaces, demand paging and the TLB (`AddressSpace`, the area fault handlers,
 `PageFaultHandler`, `VirtualMemoryManager`).

 Three representations of one thing are kept: the area list says what should be mapped, the page
 table what is mapped so far, the TLB what the processor remembers of it.  The functions below say
 what each operation does to them; `MachineInv` is the agreement between the three, and it is shown
 to survive every run.
 */
module VirtualMemory {
  import opened Basics
  import Bits
  import opened Paging
  import opened Areas

  datatype Space = Space(areas: seq<Area>, pt: PageTable)

  // ---------------------------------------------------------------------------------------------
  // Operations on one address space
  // ---------------------------------------------------------------------------------------------

  ghost function AddTo(s: Space, vma: Area, nodeAllocated: bool): Space {
    if Collides(s.areas, vma) || !nodeAllocated then s else s.(areas := Insert(s.areas, vma))
  }

  /** `RmArea`: the owner of `ptr` goes, together with every page it had mapped. */
  function RemoveFrom(s: Space, ptr: Addr): Space {
    var k := Owner(s.areas, ptr);
    if k == |s.areas| then s
    else Space(s.areas[..k] + s.areas[k + 1..], Without(s.pt, s.areas[k].start, s.areas[k].End()))
  }

  /** `UpdateAreaFlags`: the area that starts at `ptr`, and its mapped pages, get new flags. */
  function UpdateIn(s: Space, ptr: Addr, f: AreaFlags): Space {
    var k := Owner(s.areas, ptr);
    if k == |s.areas| || s.areas[k].start != ptr then s
    else Space(s.areas[k := s.areas[k].(flags := f)],
               Reflagged(s.pt, s.areas[k].start, s.areas[k].End(), UserPageFlags(f)))
  }

  datatype Outcome = Resolved | Unresolvable | Panic

  /** Physical page chosen by the direct-mapping handler when byte `x` of area `a` faults. */
  function DirectFrame(a: Area, x: Addr): Frame
    requires a.kind.Direct? && IsAddrInArea(a, x)
  {
    PageDown(a.kind.physStart + (x - a.start))
  }

  function FaultOutcome(s: Space, x: Addr, present: bool, write: bool, frame: Option<Frame>, tables: bool): Outcome {
    var k := Owner(s.areas, x);
    if k == |s.areas| || present then Unresolvable
    else if write && !s.areas[k].flags.writable then Panic
    else if s.areas[k].kind.Anonymous? && frame.None? then Unresolvable
    else if PageDown(x) in s.pt || !tables then Unresolvable
    else Resolved
  }

  /** The anonymous handler has taken a frame from the allocator, whether or not it could map it. */
  predicate FrameTaken(s: Space, x: Addr, present: bool, write: bool, frame: Option<Frame>) {
    var k := Owner(s.areas, x);
    k < |s.areas| && !present && (write ==> s.areas[k].flags.writable)
    && s.areas[k].kind.Anonymous? && frame.Some?
  }

  /** A resolved fault maps exactly the faulting page; any other fault leaves the space alone. */
  function FaultIn(s: Space, x: Addr, present: bool, write: bool, frame: Option<Frame>, tables: bool): Space {
    if FaultOutcome(s, x, present, write, frame, tables) != Resolved then s
    else
      var a := s.areas[Owner(s.areas, x)];
      var fr := if a.kind.Anonymous? then frame.value else DirectFrame(a, x);
      s.(pt := s.pt[PageDown(x) := Entry(fr, UserPageFlags(a.flags))])
  }

  // ---------------------------------------------------------------------------------------------
  // Agreement of area list and page table
  // ---------------------------------------------------------------------------------------------

  /** Page `p` is mapped on behalf of area `k`, with that area's current flags. */
  ghost predicate MappedFor(s: Space, p: Addr, k: nat)
    requires p in s.pt && k < |s.areas|
  {
    var a := s.areas[k];
    && IsAddrInArea(a, p)
    && s.pt[p].flags == UserPageFlags(a.flags)
    && (a.kind.Direct? && IsPage(a.kind.physStart) ==> s.pt[p].frame == a.kind.physStart + (p - a.start))
  }

  ghost predicate SpaceInv(s: Space) {
    && ListWf(s.areas)
    && PageTableWf(s.pt)
    && forall p :: p in s.pt ==> exists k: nat :: k < |s.areas| && MappedFor(s, p, k)
  }

  ghost predicate IsAnonymousPage(s: Space, p: Addr) {
    p in s.pt && Owner(s.areas, p) < |s.areas| && s.areas[Owner(s.areas, p)].kind.Anonymous?
  }

  /** What a change to one space may do to anonymous pages without endangering frame ownership. */
  ghost predicate KeepsFrames(s: Space, s': Space) {
    forall p :: IsAnonymousPage(s', p) ==> IsAnonymousPage(s, p) && s'.pt[p].frame == s.pt[p].frame
  }

  lemma OwnerIs(l: seq<Area>, x: Addr, k: nat)
    requires ListWf(l) && k < |l| && IsAddrInArea(l[k], x)
    ensures Owner(l, x) == k
  {
    hide IsPage, PageDown, PageUp;
    OwnerIsUnique(l, k, Owner(l, x), x);
  }

  /** An area of whole pages contains either all or none of a page. */
  lemma PageInArea(a: Area, x: Addr)
    requires AreaWf(a)
    ensures IsAddrInArea(a, x) <==> IsAddrInArea(a, PageDown(x))
    ensures IsPage(PageDown(x))
    ensures IsPage(x) ==> (PageInRange(x, a.start, a.End()) <==> IsAddrInArea(a, x))
  {
    hide IsPage, PageDown, PageUp;
    PageOfRange(a.start, x);
    PageSum(a.start, a.size);
    PageOfRange(a.End(), x);
    PageRoundsToItself(a.start);
    PageRoundsToItself(a.End());
  }

  /** Rounding down does not cross a page boundary. */
  lemma PageOfRange(b: Addr, x: Addr)
    requires IsPage(b)
    ensures b <= x <==> b <= PageDown(x)
    ensures IsPage(PageDown(x))
  {
    var m, q := b / 4096, x / 4096;
    assert b == 4096 * m && PageDown(x) == 4096 * q && x < 4096 * q + 4096;
    assert m <= q || q + 1 <= m;
  }

  lemma PageSum(x: Addr, y: Addr)
    requires IsPage(x) && IsPage(y)
    ensures IsPage(x + y)
  {
  }

  lemma OwnerAfterInsert(l: seq<Area>, a: Area, p: Addr, k: nat)
    requires ListWf(l) && AreaWf(a) && !Collides(l, a) && k < |l| && IsAddrInArea(l[k], p)
    ensures var k' := if k < InsertPos(l, a) then k else k + 1;
            k' < |Insert(l, a)| && Insert(l, a)[k'] == l[k] && Owner(Insert(l, a), p) == k'
  {
    hide IsPage, PageDown, PageUp;
    var k' := if k < InsertPos(l, a) then k else k + 1;
    InsertAt(l, a, k');
    InsertKeepsListWf(l, a);
    OwnerIs(Insert(l, a), p, k');
  }

  lemma AddKeepsSpaceInv(s: Space, vma: Area, nodeAllocated: bool)
    requires SpaceInv(s) && AreaWf(vma)
    ensures SpaceInv(AddTo(s, vma, nodeAllocated))
    ensures KeepsFrames(s, AddTo(s, vma, nodeAllocated))
  {
    hide IsPage, PageDown, PageUp, Owner, AreaWf, UserPageFlags, Insert, Sorted, Disjoint;
    if !Collides(s.areas, vma) && nodeAllocated {
      var r := AddTo(s, vma, nodeAllocated);
      InsertKeepsListWf(s.areas, vma);
      forall p | p in s.pt
        ensures exists k: nat :: k < |r.areas| && MappedFor(r, p, k)
        ensures IsAnonymousPage(r, p) <==> IsAnonymousPage(s, p)
      {
        var k: nat :| k < |s.areas| && MappedFor(s, p, k);
        OwnerIs(s.areas, p, k);
        OwnerAfterInsert(s.areas, vma, p, k);
        assert MappedFor(r, p, Owner(r.areas, p));
      }
    }
  }

  lemma RemoveKeepsListWf(l: seq<Area>, j: nat)
    requires ListWf(l) && j < |l|
    ensures ListWf(l[..j] + l[j + 1..])
  {
    hide IsPage, PageDown, PageUp;
    var r := l[..j] + l[j + 1..];
    assert forall i :: 0 <= i < |r| ==> r[i] == l[if i < j then i else i + 1];
  }

  /** An address outside the removed area keeps its owner. */
  lemma OwnerAfterRemove(l: seq<Area>, j: nat, p: Addr, k: nat)
    requires ListWf(l) && j < |l| && k < |l| && IsAddrInArea(l[k], p) && !IsAddrInArea(l[j], p)
    ensures var r := l[..j] + l[j + 1..]; Owner(r, p) < |r| && r[Owner(r, p)] == l[k]
  {
    hide IsPage, AreaWf, Owner;
    RemoveKeepsListWf(l, j);
    OwnerIs(l[..j] + l[j + 1..], p, if k < j then k else k - 1);
  }

  /** A page that survives a removal keeps its owner. */
  lemma RemoveKeepsPage(s: Space, ptr: Addr, p: Addr)
    requires SpaceInv(s) && p in RemoveFrom(s, ptr).pt
    ensures var r := RemoveFrom(s, ptr);
            p in s.pt && r.pt[p] == s.pt[p]
            && Owner(r.areas, p) < |r.areas| && Owner(s.areas, p) < |s.areas|
            && r.areas[Owner(r.areas, p)] == s.areas[Owner(s.areas, p)]
            && MappedFor(r, p, Owner(r.areas, p))
  {
    hide IsPage, PageDown, PageUp, Owner, AreaWf, UserPageFlags, Sorted, Disjoint, PageInRange;
    var j := Owner(s.areas, ptr);
    var k: nat :| k < |s.areas| && MappedFor(s, p, k);
    OwnerIs(s.areas, p, k);
    if j < |s.areas| {
      PageInArea(s.areas[j], p);
      OwnerAfterRemove(s.areas, j, p, k);
    }
  }

  lemma RemoveKeepsSpaceInv(s: Space, ptr: Addr)
    requires SpaceInv(s)
    ensures SpaceInv(RemoveFrom(s, ptr))
    ensures KeepsFrames(s, RemoveFrom(s, ptr))
  {
    hide IsPage, PageDown, PageUp, Owner, MappedFor;
    var r := RemoveFrom(s, ptr);
    if Owner(s.areas, ptr) < |s.areas| { RemoveKeepsListWf(s.areas, Owner(s.areas, ptr)); }
    forall p | p in r.pt
      ensures exists k: nat :: k < |r.areas| && MappedFor(r, p, k)
      ensures IsAnonymousPage(r, p) ==> IsAnonymousPage(s, p) && r.pt[p].frame == s.pt[p].frame
    {
      RemoveKeepsPage(s, ptr, p);
    }
  }

  /** A page keeps its frame and its owner when flags change, and follows the owner's new flags. */
  lemma UpdateKeepsPage(s: Space, ptr: Addr, f: AreaFlags, p: Addr)
    requires SpaceInv(s) && p in s.pt
    ensures var r := UpdateIn(s, ptr, f);
            p in r.pt && r.pt[p].frame == s.pt[p].frame
            && Owner(r.areas, p) == Owner(s.areas, p) < |s.areas| == |r.areas|
            && r.areas[Owner(r.areas, p)].kind == s.areas[Owner(s.areas, p)].kind
            && MappedFor(r, p, Owner(r.areas, p))
  {
    hide IsPage, PageDown, PageUp, Owner, AreaWf, UserPageFlags, Sorted, Disjoint;
    var j := Owner(s.areas, ptr);
    var k: nat :| k < |s.areas| && MappedFor(s, p, k);
    OwnerIs(s.areas, p, k);
    if j < |s.areas| && s.areas[j].start == ptr {
      PageInArea(s.areas[j], p);
      UpdateKeepsListWf(s.areas, j, f);
      if IsAddrInArea(s.areas[j], p) { OwnerIs(s.areas, p, j); }
      OwnerIs(s.areas[j := s.areas[j].(flags := f)], p, k);
    }
  }

  lemma UpdateKeepsListWf(l: seq<Area>, j: nat, f: AreaFlags)
    requires ListWf(l) && j < |l|
    ensures ListWf(l[j := l[j].(flags := f)])
  {
    hide IsPage, PageDown, PageUp;
    var r := l[j := l[j].(flags := f)];
    assert forall i :: 0 <= i < |r| ==> r[i].start == l[i].start && r[i].size == l[i].size;
  }

  lemma UpdateKeepsSpaceInv(s: Space, ptr: Addr, f: AreaFlags)
    requires SpaceInv(s)
    ensures SpaceInv(UpdateIn(s, ptr, f))
    ensures KeepsFrames(s, UpdateIn(s, ptr, f))
  {
    hide IsPage, PageDown, PageUp, Owner, MappedFor;
    var r := UpdateIn(s, ptr, f);
    if Owner(s.areas, ptr) < |s.areas| { UpdateKeepsListWf(s.areas, Owner(s.areas, ptr), f); }
    forall p | p in r.pt
      ensures exists k: nat :: k < |r.areas| && MappedFor(r, p, k)
      ensures IsAnonymousPage(r, p) ==> IsAnonymousPage(s, p) && r.pt[p].frame == s.pt[p].frame
    {
      UpdateKeepsPage(s, ptr, f, p);
    }
  }

  lemma FaultKeepsSpaceInv(s: Space, x: Addr, present: bool, write: bool, frame: Option<Frame>, tables: bool)
    requires SpaceInv(s)
    ensures SpaceInv(FaultIn(s, x, present, write, frame, tables))
    ensures FaultIn(s, x, present, write, frame, tables).areas == s.areas
  {
    hide IsPage, PageDown, PageUp;
    if FaultOutcome(s, x, present, write, frame, tables) == Resolved {
      var r := FaultIn(s, x, present, write, frame, tables);
      var k := Owner(s.areas, x);
      PageInArea(s.areas[k], x);
      if s.areas[k].kind.Direct? && IsPage(s.areas[k].kind.physStart) { DirectFrameOfPage(s.areas[k], x); }
      assert MappedFor(r, PageDown(x), k);
      forall p | p in s.pt && p != PageDown(x) ensures exists k: nat :: k < |r.areas| && MappedFor(r, p, k) {
        var k: nat :| k < |s.areas| && MappedFor(s, p, k);
        assert MappedFor(r, p, k);
      }
    }
  }

  /** The area is in the space and contains the address. */
  predicate Contains(s: Space, x: Addr, a: Area) { a in s.areas && a.start <= x < a.start + a.size }

  /** What a fault needs to be resolved, by the area list, the page table and the allocators. */
  ghost predicate IsResolvable(s: Space, x: Addr, present: bool, write: bool, frame: Option<Frame>, tables: bool) {
    && !present && tables && x - x % 4096 !in s.pt
    && exists a :: Contains(s, x, a) && (write ==> a.flags.writable) && (a.kind.Anonymous? ==> frame.Some?)
  }

  /** The area that contains the address is the one the lookup finds. */
  lemma ContainingArea(s: Space, x: Addr)
    requires SpaceInv(s)
    ensures Owner(s.areas, x) < |s.areas| ==> Contains(s, x, s.areas[Owner(s.areas, x)])
    ensures forall a :: Contains(s, x, a) ==> Owner(s.areas, x) < |s.areas| && a == s.areas[Owner(s.areas, x)]
  {
    hide IsPage, PageDown, PageUp, Owner;
    forall a | Contains(s, x, a) ensures Owner(s.areas, x) < |s.areas| && a == s.areas[Owner(s.areas, x)] {
      var k: nat :| k < |s.areas| && s.areas[k] == a;
      OwnerIs(s.areas, x, k);
    }
  }

  /**
   Exactly when a fault is resolved, for reads and writes and both kinds of area, and exactly when it
   panics: for a write to a page of a read-only area that is not present.
   */
  lemma FaultResolvedIff(s: Space, x: Addr, present: bool, write: bool, frame: Option<Frame>, tables: bool)
    requires SpaceInv(s)
    ensures FaultOutcome(s, x, present, write, frame, tables) == Resolved
            <==> IsResolvable(s, x, present, write, frame, tables)
    ensures FaultOutcome(s, x, present, write, frame, tables) == Panic
            <==> !present && write && exists a :: Contains(s, x, a) && !a.flags.writable
  {
    hide SpaceInv, Owner, Contains;
    ContainingArea(s, x);
  }

  /** The page of the address `x` of area `a` is mapped as the area demands, to the given frame if it is anonymous. */
  ghost predicate MapsPageOf(s: Space, s': Space, x: Addr, a: Area, frame: Option<Frame>) {
    && Contains(s, x, a) && x - x % 4096 !in s.pt && s'.areas == s.areas
    && var phys := if a.kind.Anonymous? then (if frame.Some? then frame.value else 0)
                   else var p := a.kind.physStart + (x - a.start); p - p % 4096;
       var flags := PageFlags(true, a.flags.writable, true, a.flags.writeThrough, a.flags.cacheDisable, false,
                              !a.flags.executable);
       s'.pt == s.pt[x - x % 4096 := Entry(phys, flags)]
  }

  /** A resolved fault maps exactly the page of the address; any other fault changes nothing. */
  lemma FaultMapsExactly(s: Space, x: Addr, present: bool, write: bool, frame: Option<Frame>, tables: bool)
    requires SpaceInv(s)
    ensures var s' := FaultIn(s, x, present, write, frame, tables);
            if IsResolvable(s, x, present, write, frame, tables)
            then exists a :: MapsPageOf(s, s', x, a, frame)
            else s' == s
  {
    hide SpaceInv, Owner;
    ContainingArea(s, x);
    FaultResolvedIff(s, x, present, write, frame, tables);
    if IsResolvable(s, x, present, write, frame, tables) {
      var a := s.areas[Owner(s.areas, x)];
      assert MapsPageOf(s, FaultIn(s, x, present, write, frame, tables), x, a, frame);
    }
  }

  lemma DirectFrameOfPage(a: Area, x: Addr)
    requires AreaWf(a) && a.kind.Direct? && IsPage(a.kind.physStart) && IsAddrInArea(a, x)
    ensures DirectFrame(a, x) == a.kind.physStart + (PageDown(x) - a.start)
  {
  }

  /**
   Which physical page a direct-mapped page goes to does not depend on the byte that faulted
   exactly when the physical start is page-aligned.
   */
  lemma DirectFrameIffAligned(a: Area)
    requires AreaWf(a) && a.kind.Direct? && a.size > 0
    ensures (forall x, y :: IsAddrInArea(a, x) && IsAddrInArea(a, y) && PageDown(x) == PageDown(y)
                            ==> DirectFrame(a, x) == DirectFrame(a, y))
            <==> IsPage(a.kind.physStart)
  {
    if IsPage(a.kind.physStart) {
      forall x | IsAddrInArea(a, x) ensures DirectFrame(a, x) == a.kind.physStart + (PageDown(x) - a.start) {
        DirectFrameOfPage(a, x);
      }
    } else {
      var x, y := a.start, a.start + PAGE - 1;
      assert IsAddrInArea(a, x) && IsAddrInArea(a, y) && PageDown(x) == PageDown(y);
      assert DirectFrame(a, x) != DirectFrame(a, y);
    }
  }

  // ---------------------------------------------------------------------------------------------
  // The machine: all address spaces, the current one, the TLB and the frames handed out so far
  // ---------------------------------------------------------------------------------------------

  datatype Machine = Machine(spaces: map<nat, Space>, current: nat, tlb: PageTable, used: set<Frame>)

  datatype Op =
    | AddArea(id: nat, vma: Area, nodeAllocated: bool)
    | RmArea(id: nat, ptr: Addr)
    | UpdateAreaFlags(id: nat, ptr: Addr, flags: AreaFlags)
    | Fault(x: Addr, present: bool, write: bool, frame: Option<Frame>, tables: bool)
    | TlbFill(page: Addr)
    | SwitchTo(id: nat)
    | Create(id: nat)
    | Destroy(id: nat)

  /** What callers, the frame allocator and the processor guarantee about an operation. */
  ghost predicate Enabled(m: Machine, op: Op) {
    match op
    case AddArea(id, vma, _) => id in m.spaces && AreaWf(vma)
    case RmArea(id, _) => id in m.spaces
    case UpdateAreaFlags(id, _, _) => id in m.spaces
    case Fault(_, _, _, frame, _) => m.current in m.spaces && (frame.Some? ==> frame.value !in m.used)
    case TlbFill(page) => m.current in m.spaces && page in m.spaces[m.current].pt
    case SwitchTo(id) => id in m.spaces
    case Create(id) => id !in m.spaces
    case Destroy(id) => id in m.spaces && id != m.current
  }

  /** TLB after the invalidation that follows a change to the owner of `ptr` in space `s`. */
  function Flushed(tlb: PageTable, s: Space, ptr: Addr): PageTable {
    var k := Owner(s.areas, ptr);
    if k == |s.areas| then tlb else Without(tlb, s.areas[k].start, s.areas[k].End())
  }

  ghost function Apply(m: Machine, op: Op): Machine
    requires Enabled(m, op)
  {
    match op
    case AddArea(id, vma, ok) => m.(spaces := m.spaces[id := AddTo(m.spaces[id], vma, ok)])
    case RmArea(id, ptr) =>
      m.(spaces := m.spaces[id := RemoveFrom(m.spaces[id], ptr)], tlb := Flushed(m.tlb, m.spaces[id], ptr))
    case UpdateAreaFlags(id, ptr, f) =>
      var s := m.spaces[id];
      var k := Owner(s.areas, ptr);
      if k == |s.areas| || s.areas[k].start != ptr then m
      else m.(spaces := m.spaces[id := UpdateIn(s, ptr, f)], tlb := Flushed(m.tlb, s, ptr))
    case Fault(x, present, write, frame, tables) =>
      var s := m.spaces[m.current];
      m.(spaces := m.spaces[m.current := FaultIn(s, x, present, write, frame, tables)],
         used := if FrameTaken(s, x, present, write, frame) then m.used + {frame.value} else m.used)
    case TlbFill(page) => m.(tlb := m.tlb[page := m.spaces[m.current].pt[page]])
    case SwitchTo(id) => m.(current := id, tlb := map[])
    case Create(id) => m.(spaces := m.spaces[id := Space([], map[])])
    case Destroy(id) => m.(spaces := m.spaces - {id})
  }

  ghost predicate FramesDistinct(spaces: map<nat, Space>, used: set<Frame>) {
    && (forall i, p :: i in spaces && IsAnonymousPage(spaces[i], p) ==> spaces[i].pt[p].frame in used)
    && (forall i, p, j, q :: i in spaces && j in spaces && IsAnonymousPage(spaces[i], p)
                             && IsAnonymousPage(spaces[j], q) && (i != j || p != q)
                             ==> spaces[i].pt[p].frame != spaces[j].pt[q].frame)
  }

  ghost predicate TlbAgrees(m: Machine) {
    m.current in m.spaces && CachedBy(m.tlb, m.spaces[m.current].pt)
  }

  ghost predicate MachineInv(m: Machine) {
    && (forall i :: i in m.spaces ==> SpaceInv(m.spaces[i]))
    && TlbAgrees(m)
    && FramesDistinct(m.spaces, m.used)
  }

  lemma EmptySpaceInv()
    ensures SpaceInv(Space([], map[]))
  {
  }

  lemma ApplyKeepsSpaces(m: Machine, op: Op)
    requires MachineInv(m) && Enabled(m, op)
    ensures forall i :: i in Apply(m, op).spaces ==> SpaceInv(Apply(m, op).spaces[i])
  {
    hide IsPage, PageDown, PageUp, SpaceInv, RemoveFrom, UpdateIn, AddTo, FaultIn, FramesDistinct, Owner;
    match op
    case AddArea(id, vma, ok) => AddKeepsSpaceInv(m.spaces[id], vma, ok);
    case RmArea(id, ptr) => RemoveKeepsSpaceInv(m.spaces[id], ptr);
    case UpdateAreaFlags(id, ptr, f) => UpdateKeepsSpaceInv(m.spaces[id], ptr, f);
    case Fault(x, pr, w, fr, t) => FaultKeepsSpaceInv(m.spaces[m.current], x, pr, w, fr, t);
    case Create(_) => assert SpaceInv(Space([], map[])) by { EmptySpaceInv(); }
    case _ =>
  }

  lemma SpaceChangeKeepsFrames(m: Machine, id: nat, s': Space)
    requires FramesDistinct(m.spaces, m.used) && id in m.spaces && KeepsFrames(m.spaces[id], s')
    ensures FramesDistinct(m.spaces[id := s'], m.used)
  {
  }

  lemma NoPagesKeepFrames(m: Machine, spaces: map<nat, Space>)
    requires FramesDistinct(m.spaces, m.used)
    requires forall i :: i in spaces ==> (i in m.spaces && spaces[i] == m.spaces[i]) || spaces[i].pt == map[]
    ensures FramesDistinct(spaces, m.used)
  {
  }

  /** The only anonymous page a fault can add is the faulting one, on the frame just allocated. */
  lemma FaultAddsOnePage(s: Space, x: Addr, present: bool, write: bool, frame: Option<Frame>, tables: bool, p: Addr)
    requires SpaceInv(s) && IsAnonymousPage(FaultIn(s, x, present, write, frame, tables), p)
    ensures var s' := FaultIn(s, x, present, write, frame, tables);
            || (IsAnonymousPage(s, p) && s'.pt[p].frame == s.pt[p].frame)
            || (p == PageDown(x) && p !in s.pt && FrameTaken(s, x, present, write, frame)
                && frame.value == s'.pt[p].frame)
  {
    hide IsPage, PageDown, PageUp;
    if FaultOutcome(s, x, present, write, frame, tables) == Resolved && p == PageDown(x) {
      var k := Owner(s.areas, x);
      PageInArea(s.areas[k], x);
      OwnerIs(s.areas, p, k);
    }
  }

  lemma FaultKeepsFrames(m: Machine, op: Op)
    requires MachineInv(m) && Enabled(m, op) && op.Fault?
    ensures FramesDistinct(Apply(m, op).spaces, Apply(m, op).used)
  {
    hide IsPage, PageDown, PageUp;
    var s := m.spaces[m.current];
    var s' := FaultIn(s, op.x, op.present, op.write, op.frame, op.tables);
    var taken := if FrameTaken(s, op.x, op.present, op.write, op.frame) then op.frame else None;
    forall p | IsAnonymousPage(s', p)
      ensures (IsAnonymousPage(s, p) && s'.pt[p].frame == s.pt[p].frame)
              || (p == PageDown(op.x) && taken == Some(s'.pt[p].frame))
    {
      FaultAddsOnePage(s, op.x, op.present, op.write, op.frame, op.tables, p);
    }
    NewPageKeepsFrames(m, s', PageDown(op.x), taken);
  }

  lemma NewPageKeepsFrames(m: Machine, s': Space, page: Addr, frame: Option<Frame>)
    requires FramesDistinct(m.spaces, m.used) && m.current in m.spaces && (frame.Some? ==> frame.value !in m.used)
    requires var s := m.spaces[m.current];
             forall p :: IsAnonymousPage(s', p) ==>
               || (IsAnonymousPage(s, p) && s'.pt[p].frame == s.pt[p].frame)
               || (p == page && frame == Some(s'.pt[p].frame))
    ensures FramesDistinct(m.spaces[m.current := s'],
                           if frame.Some? then m.used + {frame.value} else m.used)
  {
    hide IsPage, PageDown, PageUp;
    var m' := m.(spaces := m.spaces[m.current := s'], used := if frame.Some? then m.used + {frame.value} else m.used);
    forall i, p | i in m'.spaces && IsAnonymousPage(m'.spaces[i], p)
      ensures m'.spaces[i].pt[p].frame in m'.used
      ensures frame == Some(m'.spaces[i].pt[p].frame) ==> i == m.current && p == page
      ensures frame != Some(m'.spaces[i].pt[p].frame) ==>
                IsAnonymousPage(m.spaces[i], p) && m'.spaces[i].pt[p].frame == m.spaces[i].pt[p].frame
    {
    }
  }

  lemma ApplyKeepsFrames(m: Machine, op: Op)
    requires MachineInv(m) && Enabled(m, op)
    ensures FramesDistinct(Apply(m, op).spaces, Apply(m, op).used)
  {
    hide IsPage, PageDown, PageUp, SpaceInv, RemoveFrom, UpdateIn, AddTo, FaultIn, IsAnonymousPage, FramesDistinct;
    hide KeepsFrames, Owner;
    match op
    case AddArea(id, vma, ok) =>
      AddKeepsSpaceInv(m.spaces[id], vma, ok);
      SpaceChangeKeepsFrames(m, id, Apply(m, op).spaces[id]);
    case RmArea(id, ptr) =>
      RemoveKeepsSpaceInv(m.spaces[id], ptr);
      SpaceChangeKeepsFrames(m, id, Apply(m, op).spaces[id]);
    case UpdateAreaFlags(id, ptr, f) =>
      UpdateKeepsSpaceInv(m.spaces[id], ptr, f);
      SpaceChangeKeepsFrames(m, id, UpdateIn(m.spaces[id], ptr, f));
    case Fault(_, _, _, _, _) => FaultKeepsFrames(m, op);
    case Create(id) => NoPagesKeepFrames(m, Apply(m, op).spaces);
    case Destroy(id) => NoPagesKeepFrames(m, Apply(m, op).spaces);
    case TlbFill(_) =>
    case SwitchTo(_) =>
  }

  /** Every entry of `tlb` is the entry of `pt`. */
  ghost predicate CachedBy(tlb: PageTable, pt: PageTable) {
    forall p :: p in tlb ==> p in pt && tlb[p] == pt[p]
  }

  /** What is left in the TLB after the flush is still right: pages outside the area did not change. */
  lemma FlushSuffices(tlb: PageTable, s: Space, ptr: Addr, f: AreaFlags)
    requires CachedBy(tlb, s.pt)
    ensures CachedBy(Flushed(tlb, s, ptr), RemoveFrom(s, ptr).pt)
    ensures CachedBy(Flushed(tlb, s, ptr), UpdateIn(s, ptr, f).pt)
  {
    hide PageInRange, Owner;
  }

  lemma FaultOnlyAdds(s: Space, x: Addr, present: bool, write: bool, frame: Option<Frame>, tables: bool)
    ensures CachedBy(s.pt, FaultIn(s, x, present, write, frame, tables).pt)
  {
    hide Owner, PageDown;
  }

  lemma ApplyKeepsTlb(m: Machine, op: Op)
    requires MachineInv(m) && Enabled(m, op)
    ensures TlbAgrees(Apply(m, op))
  {
    hide IsPage, PageDown, PageUp, SpaceInv, FramesDistinct, Owner, RemoveFrom, UpdateIn, FaultIn, Flushed;
    var s := m.spaces[m.current];
    match op
    case RmArea(id, ptr) =>
      FlushSuffices(m.tlb, s, ptr, AreaFlags(true, true, true, true, true));
      if id != m.current { FlushIsSubset(m.tlb, m.spaces[id], ptr); }
    case UpdateAreaFlags(id, ptr, f) =>
      FlushSuffices(m.tlb, s, ptr, f);
      if id != m.current { FlushIsSubset(m.tlb, m.spaces[id], ptr); }
    case Fault(x, pr, w, fr, t) => FaultOnlyAdds(s, x, pr, w, fr, t);
    case _ =>
  }

  lemma FlushIsSubset(tlb: PageTable, s: Space, ptr: Addr)
    ensures CachedBy(Flushed(tlb, s, ptr), tlb)
  {
    hide PageInRange;
  }

  lemma ApplyKeepsMachineInv(m: Machine, op: Op)
    requires MachineInv(m) && Enabled(m, op)
    ensures MachineInv(Apply(m, op))
  {
    ApplyKeepsSpaces(m, op);
    ApplyKeepsFrames(m, op);
    ApplyKeepsTlb(m, op);
  }

  // ---------------------------------------------------------------------------------------------
  // Whole runs
  // ---------------------------------------------------------------------------------------------

  ghost predicate IsRun(m: Machine, ops: seq<Op>)
    decreases |ops|
  {
    ops == [] || (Enabled(m, ops[0]) && IsRun(Apply(m, ops[0]), ops[1..]))
  }

  ghost function Run(m: Machine, ops: seq<Op>): Machine
    requires IsRun(m, ops)
    decreases |ops|
  {
    if ops == [] then m else Run(Apply(m, ops[0]), ops[1..])
  }

  lemma {:induction false} RunKeepsMachineInv(m: Machine, ops: seq<Op>)
    requires MachineInv(m) && IsRun(m, ops)
    ensures MachineInv(Run(m, ops))
    decreases |ops|
  {
    if ops != [] {
      ApplyKeepsMachineInv(m, ops[0]);
      RunKeepsMachineInv(Apply(m, ops[0]), ops[1..]);
    }
  }

  /**
   After any run from an empty machine, every mapped page has exactly one owner, carries the
   flags of that owner, and goes to the owner's physical page when the owner is an aligned direct
   mapping; no two anonymous pages share a frame; and every cached translation is current.
   */
  lemma EveryRunAgrees(ops: seq<Op>, id: nat, p: Addr)
    requires var m0 := Machine(map[0 := Space([], map[])], 0, map[], {});
             IsRun(m0, ops) && id in Run(m0, ops).spaces && p in Run(m0, ops).spaces[id].pt
    ensures var m := Run(Machine(map[0 := Space([], map[])], 0, map[], {}), ops);
            var s := m.spaces[id];
            var k := Owner(s.areas, p);
            && k < |s.areas| && MappedFor(s, p, k)
            && (forall i :: 0 <= i < |s.areas| && IsAddrInArea(s.areas[i], p) ==> i == k)
            && FramesDistinct(m.spaces, m.used) && TlbAgrees(m)
  {
    var m0 := Machine(map[0 := Space([], map[])], 0, map[], {});
    RunKeepsMachineInv(m0, ops);
    var s := Run(m0, ops).spaces[id];
    var k: nat :| k < |s.areas| && MappedFor(s, p, k);
    OwnerIs(s.areas, p, k);
    forall i: nat | i < |s.areas| && IsAddrInArea(s.areas[i], p) ensures i == k { OwnerIs(s.areas, p, i); }
  }
}
