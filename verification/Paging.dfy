/**
 Pages, page flags, and the page-table and TLB range loops (`hal::Mmu`, `hal::Tlb`).

 A page table is a finite map from page-aligned virtual addresses to entries, which is what the
 four-level walk of the architecture code implements.  Addresses are naturals; ranges are assumed
 not to run past the last page of the 64-bit word.
 */
module Paging {
  import Bits

  const PAGE: nat := 4096

  /** First kernel address; everything modelled on top of this module lies below it. */
  const KERNEL_START: nat := 0xFFFF_8000_0000_0000

  type Addr = nat
  type Frame = nat

  function PageDown(x: Addr): Addr { x - x % PAGE }

  function PageUp(x: Addr): Addr { PageDown(x + PAGE - 1) }

  predicate IsPage(x: Addr) { x % PAGE == 0 }

  datatype AreaFlags = AreaFlags(
    readable: bool, writable: bool, executable: bool, writeThrough: bool, cacheDisable: bool)

  datatype PageFlags = PageFlags(
    present: bool, writable: bool, userAccessible: bool, writeThrough: bool, cacheDisable: bool,
    global: bool, noExecute: bool)

  datatype Entry = Entry(frame: Frame, flags: PageFlags)

  type PageTable = map<Addr, Entry>

  /** The flags every user page of an area with flags `f` must carry. */
  function UserPageFlags(f: AreaFlags): PageFlags {
    PageFlags(true, f.writable, true, f.writeThrough, f.cacheDisable, false, !f.executable)
  }

  /** A user page is reachable from user mode; its area decides about writing, execution and caching. */
  lemma UserPageFlagsAre(f: AreaFlags)
    ensures var p := UserPageFlags(f);
            && p.present && p.userAccessible && !p.global
            && (p.writable <==> f.writable) && (p.noExecute <==> !f.executable)
            && (p.writeThrough <==> f.writeThrough) && (p.cacheDisable <==> f.cacheDisable)
  {
  }

  /** Pages of the half-open byte range [lo, hi). */
  predicate PageInRange(p: Addr, lo: Addr, hi: Addr) { PageDown(lo) <= p < PageUp(hi) }

  function Without(pt: PageTable, lo: Addr, hi: Addr): PageTable {
    map p | p in pt && !PageInRange(p, lo, hi) :: pt[p]
  }

  function Reflagged(pt: PageTable, lo: Addr, hi: Addr, f: PageFlags): PageTable {
    map p | p in pt :: if PageInRange(p, lo, hi) then pt[p].(flags := f) else pt[p]
  }

  lemma AlignIsRounding(x: Addr, alignment: nat)
    requires 1 <= alignment < Bits.WORD && x + alignment - 1 < Bits.WORD
    ensures Bits.AlignDown(x, alignment) == x - x % alignment
    ensures Bits.AlignUp(x, alignment) == x + alignment - 1 - (x + alignment - 1) % alignment
  {
    hide Bits.AlignDown, Bits.AlignUp;
    Bits.AlignDownIsDivision(x, alignment);
    Bits.AlignUpIsDivision(x, alignment);
  }

  /** The page rounding used here is the bit-mask rounding of the library. */
  lemma PageRoundingIsAlign(x: Addr)
    requires x + PAGE - 1 < Bits.WORD
    ensures Bits.AlignDown(x, PAGE) == PageDown(x)
    ensures Bits.AlignUp(x, PAGE) == PageUp(x)
  {
    hide Bits.AlignDown, Bits.AlignUp;
    AlignIsRounding(x, PAGE);
  }

  /** The page span a range loop runs over: [AlignDown(start), AlignUp(start + size)). */
  method PageSpan(start: Addr, size: nat) returns (first: Addr, end: Addr)
    requires start + size + PAGE <= Bits.WORD
    ensures first == PageDown(start) && end == PageUp(start + size)
    ensures first <= end
  {
    hide Bits.AlignDown, Bits.AlignUp;
    PageRoundingIsAlign(start);
    PageRoundingIsAlign(start + size);
    first, end := Bits.AlignDown(start, PAGE), Bits.AlignUp(start + size, PAGE);
  }

  lemma NextPage(v: Addr)
    requires IsPage(v)
    ensures IsPage(v + PAGE)
    ensures forall q: Addr :: IsPage(q) && v <= q < v + PAGE ==> q == v
  {
  }

  lemma SpanIsPages(start: Addr, end: Addr)
    requires start <= end
    ensures IsPage(PageDown(start)) && IsPage(PageUp(end)) && PageDown(start) <= start && end <= PageUp(end)
    ensures forall v: Addr :: IsPage(v) && v < PageUp(end) ==> v + PAGE <= PageUp(end)
  {
  }

  lemma PageRange(start: Addr, size: nat)
    requires IsPage(start) && IsPage(size)
    ensures PageDown(start) == start && PageUp(start + size) == start + size
    ensures forall v: Addr :: IsPage(v) && v < start + size ==> v + PAGE <= start + size
  {
  }

  predicate PageTableWf(pt: PageTable) { forall p :: p in pt ==> IsPage(p) }

  /** `UnmapRange`: clears the entry of every page that the byte range touches, and no other. */
  method UnmapRange(pt: PageTable, start: Addr, size: nat) returns (r: PageTable)
    requires PageTableWf(pt)
    requires start + size + PAGE <= Bits.WORD
    ensures r == Without(pt, start, start + size)
  {
    hide PageDown, PageUp, IsPage;
    var addr, end := PageSpan(start, size);
    SpanIsPages(start, start + size);
    r := pt;
    while addr < end
      invariant IsPage(addr) && PageDown(start) <= addr <= end
      invariant r == map p | p in pt && !(PageDown(start) <= p < addr) :: pt[p]
    {
      NextPage(addr);
      r := r - {addr};
      addr := addr + PAGE;
    }
  }

  /** `InvalidateRange`: drops the cached translation of every page the range touches. */
  method InvalidateRange(tlb: PageTable, start: Addr, size: nat) returns (r: PageTable)
    requires PageTableWf(tlb)
    requires start + size + PAGE <= Bits.WORD
    ensures r == Without(tlb, start, start + size)
  {
    hide PageDown, PageUp, IsPage;
    var i, e := PageSpan(start, size);
    SpanIsPages(start, start + size);
    r := tlb;
    while i < e
      invariant IsPage(i) && PageDown(start) <= i <= e
      invariant r == map p | p in tlb && !(PageDown(start) <= p < i) :: tlb[p]
    {
      NextPage(i);
      r := r - {i};
      i := i + PAGE;
    }
  }

  /** The flag loop of `UpdateAreaFlags`; an unmapped page reports NotFound and is skipped. */
  method SetRangeFlags(pt: PageTable, start: Addr, size: nat, f: PageFlags) returns (r: PageTable)
    requires PageTableWf(pt)
    requires IsPage(start) && IsPage(size)
    ensures r == Reflagged(pt, start, start + size, f)
  {
    PageRange(start, size);
    hide PageDown, PageUp, IsPage;
    var v, end := start, start + size;
    r := pt;
    while v < end
      invariant IsPage(v) && start <= v <= end
      invariant r == map p | p in pt :: if start <= p < v then pt[p].(flags := f) else pt[p]
    {
      NextPage(v);
      if v in r {
        r := r[v := r[v].(flags := f)];
      }
      v := v + PAGE;
    }
  }

  /**
   `MapRange`: maps page after page until one is already present.  It succeeds exactly when none
   of the pages was present; when it fails, the pages below the first present one stay mapped.
   */
  method MapRange(pt: PageTable, vaddr: Addr, paddr: Addr, size: nat, f: PageFlags)
    returns (ok: bool, r: PageTable)
    requires PageTableWf(pt)
    requires vaddr + size + PAGE <= Bits.WORD && paddr + PAGE <= Bits.WORD
    ensures ok <==> forall p :: p in pt ==> !PageInRange(p, vaddr, vaddr + size)
    ensures forall p :: p in pt ==> p in r && r[p] == pt[p]
    ensures forall p :: p in r && p !in pt ==>
              IsPage(p) && PageInRange(p, vaddr, vaddr + size)
              && r[p] == Entry(PageDown(paddr) + (p - PageDown(vaddr)), f)
    ensures ok ==> forall p: Addr :: IsPage(p) && PageInRange(p, vaddr, vaddr + size) ==> p in r
    ensures !ok ==> exists q :: q in pt && PageInRange(q, vaddr, vaddr + size)
                                && forall p: Addr :: IsPage(p) && PageDown(vaddr) <= p < q ==> p in r && p !in pt
  {
    hide PageDown, PageUp, IsPage;
    var v, end := PageSpan(vaddr, size);
    var p, _ := PageSpan(paddr, 0);
    SpanIsPages(vaddr, vaddr + size);
    r := pt;
    while v < end
      invariant IsPage(v) && PageDown(vaddr) <= v <= end
      invariant p == PageDown(paddr) + (v - PageDown(vaddr))
      invariant forall q :: q in pt ==> q in r && r[q] == pt[q] && !(PageDown(vaddr) <= q < v)
      invariant forall q: Addr :: IsPage(q) && PageDown(vaddr) <= q < v ==> q in r
      invariant forall q :: q in r && q !in pt ==>
                  IsPage(q) && PageDown(vaddr) <= q < v
                  && r[q] == Entry(PageDown(paddr) + (q - PageDown(vaddr)), f)
    {
      NextPage(v);
      if v in r {
        return false, r;
      }
      r := r[v := Entry(p, f)];
      v, p := v + PAGE, p + PAGE;
    }
    return true, r;
  }
}
