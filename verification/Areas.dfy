/**
 The sorted area list of an address space: insertion, lookup and gap search
 (`AddArea`, `FindAreaLocked`, `FindGap`, `AreasOverlap`, `IsAddrInArea`).
 */
module Areas {
  import opened Basics
  import Bits
  import opened Paging

  datatype Kind = Anonymous | Direct(physStart: Addr)

  datatype Area = Area(start: Addr, size: nat, flags: AreaFlags, kind: Kind) {
    function End(): Addr { start + size }
  }

  datatype MemError = InvalidArgument | OutOfMemory | NotFound

  datatype Result<+T> = Ok(value: T) | Err(error: MemError)

  predicate AreasOverlap(a: Area, b: Area) { a.start < b.End() && b.start < a.End() }

  predicate IsAddrInArea(a: Area, x: Addr) { a.start <= x < a.End() }

  /** What `AddArea` demands of its argument, plus the assumption that the area ends in the user half. */
  predicate AreaWf(a: Area) {
    IsPage(a.start) && IsPage(a.size) && a.End() <= KERNEL_START
  }

  ghost predicate Sorted(l: seq<Area>) { forall i, j :: 0 <= i < j < |l| ==> l[i].start <= l[j].start }

  ghost predicate Disjoint(l: seq<Area>) { forall i, j :: 0 <= i < j < |l| ==> !AreasOverlap(l[i], l[j]) }

  ghost predicate ListWf(l: seq<Area>) {
    Sorted(l) && Disjoint(l) && forall i :: 0 <= i < |l| ==> AreaWf(l[i])
  }

  ghost predicate Collides(l: seq<Area>, a: Area) { exists i :: 0 <= i < |l| && AreasOverlap(l[i], a) }

  /** Number of areas that stay in front of `a`: those that do not start after it. */
  function InsertPos(l: seq<Area>, a: Area): (n: nat)
    ensures n <= |l|
    ensures forall i :: 0 <= i < n ==> l[i].start <= a.start
    ensures n < |l| ==> a.start < l[n].start
  {
    if l == [] || a.start < l[0].start then 0 else 1 + InsertPos(l[1..], a)
  }

  function Insert(l: seq<Area>, a: Area): seq<Area> {
    var n := InsertPos(l, a);
    l[..n] + [a] + l[n..]
  }

  lemma InsertAt(l: seq<Area>, a: Area, i: nat)
    requires i <= |l|
    ensures |Insert(l, a)| == |l| + 1
    ensures Insert(l, a)[i] == if i < InsertPos(l, a) then l[i] else if i == InsertPos(l, a) then a else l[i - 1]
  {
  }

  lemma InsertKeepsListWf(l: seq<Area>, a: Area)
    requires ListWf(l) && AreaWf(a) && !Collides(l, a)
    ensures ListWf(Insert(l, a))
  {
    hide IsPage, Insert;
    var r := Insert(l, a);
    InsertAt(l, a, 0);
    forall i, j | 0 <= i < j < |r|
      ensures r[i].start <= r[j].start && !AreasOverlap(r[i], r[j])
    {
      InsertAt(l, a, i);
      InsertAt(l, a, j);
    }
    forall i | 0 <= i < |r| ensures AreaWf(r[i]) { InsertAt(l, a, i); }
  }

  /** An address has at most one owner. */
  lemma OwnerIsUnique(l: seq<Area>, i: nat, j: nat, x: Addr)
    requires ListWf(l) && i < |l| && j < |l|
    requires IsAddrInArea(l[i], x) && IsAddrInArea(l[j], x)
    ensures i == j
  {
    var lo, hi := if i < j then i else j, if i < j then j else i;
    assert AreasOverlap(l[lo], l[hi]);
  }

  // ---------------------------------------------------------------------------------------------
  // AddArea
  // ---------------------------------------------------------------------------------------------

  /**
   The scan of `AddArea`.  It stops at the first area that starts after the new one, and yet the
   answer takes the whole list into account: InvalidArgument exactly when the new area overlaps
   some member, and otherwise sorted insertion unless no list node could be allocated.
   */
  method AddArea(l: seq<Area>, vma: Area, nodeAllocated: bool) returns (r: Result<seq<Area>>)
    requires ListWf(l) && AreaWf(vma)
    ensures r.Ok? <==> !Collides(l, vma) && nodeAllocated
    ensures r.Ok? ==> r.value == Insert(l, vma) && ListWf(r.value)
    ensures r.Err? ==> r.error == if Collides(l, vma) then InvalidArgument else OutOfMemory
  {
    var it := 0;
    while it < |l|
      invariant 0 <= it <= |l|
      invariant forall i :: 0 <= i < it ==> !AreasOverlap(l[i], vma) && l[i].start <= vma.start
    {
      var current := l[it];
      if AreasOverlap(current, vma) {
        return Err(InvalidArgument);
      }
      if vma.start < current.start {
        assert InsertPos(l, vma) == it;
        LaterAreasClear(l, vma, it);
        if !nodeAllocated {
          return Err(OutOfMemory);
        }
        InsertKeepsListWf(l, vma);
        return Ok(l[..it] + [vma] + l[it..]);
      }
      it := it + 1;
    }
    assert InsertPos(l, vma) == |l|;
    if !nodeAllocated {
      return Err(OutOfMemory);
    }
    InsertKeepsListWf(l, vma);
    assert Insert(l, vma) == l + [vma];
    return Ok(l + [vma]);
  }

  lemma LaterAreasClear(l: seq<Area>, vma: Area, it: nat)
    requires ListWf(l) && it < |l| && vma.start < l[it].start && !AreasOverlap(l[it], vma)
    ensures forall i :: it <= i < |l| ==> !AreasOverlap(l[i], vma)
  {
    forall i | it <= i < |l| ensures !AreasOverlap(l[i], vma) {
      assert l[it].start <= l[i].start;
    }
  }

  // ---------------------------------------------------------------------------------------------
  // FindAreaLocked
  // ---------------------------------------------------------------------------------------------

  /** The unique owner of an address, or |l| when no area contains it. */
  method FindAreaLocked(l: seq<Area>, x: Addr) returns (k: nat)
    requires ListWf(l)
    ensures k <= |l|
    ensures k < |l| ==> IsAddrInArea(l[k], x)
                        && forall i :: 0 <= i < |l| && IsAddrInArea(l[i], x) ==> i == k
    ensures k == |l| ==> forall i :: 0 <= i < |l| ==> !IsAddrInArea(l[i], x)
    ensures k == Owner(l, x)
  {
    k := 0;
    while k < |l|
      invariant k <= |l|
      invariant forall i :: 0 <= i < k ==> !IsAddrInArea(l[i], x)
      invariant k + Owner(l[k..], x) == Owner(l, x)
    {
      if IsAddrInArea(l[k], x) {
        forall i: nat | i < |l| && IsAddrInArea(l[i], x) ensures i == k { OwnerIsUnique(l, i, k, x); }
        return;
      }
      assert l[k..][1..] == l[k + 1..];
      k := k + 1;
    }
  }

  function Owner(l: seq<Area>, x: Addr): (k: nat)
    ensures k <= |l|
    ensures k < |l| ==> IsAddrInArea(l[k], x)
    ensures forall i :: 0 <= i < k ==> !IsAddrInArea(l[i], x)
  {
    if l == [] || IsAddrInArea(l[0], x) then 0 else 1 + Owner(l[1..], x)
  }

  // ---------------------------------------------------------------------------------------------
  // FindGap
  // ---------------------------------------------------------------------------------------------

  /** Every area ends before the next one starts. */
  ghost predicate Ordered(l: seq<Area>) { forall i, j :: 0 <= i < j < |l| ==> l[i].End() <= l[j].start }

  /** A null upper bound means the whole address range. */
  function SearchEnd(hi: Addr): Addr { PageDown(if hi == 0 then Bits.WORD - 1 else hi) }

  /**
   The range that is searched: from the first multiple of 4096 that is not below the start to the last
   one that is not above the end, or to the last page of the address word when the end is null.
   */
  lemma SearchBounds(lo: Addr, hi: Addr)
    requires lo + 4_096 <= 0x1_0000_0000_0000_0000
    ensures PageUp(lo) % 4_096 == 0 && lo <= PageUp(lo) < lo + 4_096
    ensures SearchEnd(hi) % 4_096 == 0
    ensures if hi == 0 then SearchEnd(hi) == 0xFFFF_FFFF_FFFF_F000 else SearchEnd(hi) <= hi < SearchEnd(hi) + 4_096
  {
  }

  /** [g, g + size) is a page-aligned interval of [lo, hi) that meets no area. */
  ghost predicate IsGap(l: seq<Area>, g: Addr, size: nat, lo: Addr, hi: Addr) {
    IsPage(g) && lo <= g && g + size <= hi
    && forall i :: 0 <= i < |l| ==> !(l[i].start < g + size && g < l[i].End())
  }

  ghost predicate NoGapBelow(l: seq<Area>, size: nat, lo: Addr, hi: Addr, bound: Addr) {
    forall g: Addr :: IsGap(l, g, size, lo, hi) ==> bound <= g
  }

  lemma NoGapBeforeEnd(l: seq<Area>, k: nat, size: nat, lo: Addr, hi: Addr, prevEnd: Addr)
    requires k < |l| && AreaWf(l[k]) && size > 0 && IsPage(prevEnd)
    requires NoGapBelow(l, size, lo, hi, prevEnd)
    requires l[k].start <= prevEnd || l[k].start - prevEnd < size
    ensures NoGapBelow(l, size, lo, hi, l[k].End())
  {
    hide IsPage;
    forall g: Addr | IsGap(l, g, size, lo, hi) ensures l[k].End() <= g {
      assert !(l[k].start < g + size && g < l[k].End());
    }
  }

  lemma AreaEndIsPage(a: Area)
    requires AreaWf(a)
    ensures IsPage(a.start) && IsPage(a.End())
  {
  }

  lemma PageRoundsToItself(x: Addr)
    requires IsPage(x)
    ensures PageUp(x) == x == PageDown(x)
  {
  }

  /** What the scan returns from area `k` on, having seen the end `prevEnd` last. */
  function GapScan(l: seq<Area>, k: nat, size: nat, lo: Addr, hi: Addr, prevEnd: Addr): (r: Result<Addr>)
    requires k <= |l|
    ensures r.Err? ==> r.error == NotFound
    decreases |l| - k
  {
    if k == |l| || (l[k].End() > lo && l[k].start >= hi) then
      if hi > PageUp(prevEnd) && hi - PageUp(prevEnd) >= size then Ok(PageUp(prevEnd)) else Err(NotFound)
    else if l[k].End() <= lo then
      GapScan(l, k + 1, size, lo, hi, Max(prevEnd, l[k].End()))
    else if PageDown(l[k].start) > PageUp(prevEnd) && PageDown(l[k].start) - PageUp(prevEnd) >= size then
      Ok(PageUp(prevEnd))
    else
      GapScan(l, k + 1, size, lo, hi, l[k].End())
  }

  /** The answer a gap search should give. */
  ghost predicate IsLowestGap(l: seq<Area>, size: nat, lo: Addr, hi: Addr, r: Result<Addr>) {
    match r
    case Ok(g) => IsGap(l, g, size, lo, hi) && NoGapBelow(l, size, lo, hi, g)
    case Err(_) => forall g: Addr :: !IsGap(l, g, size, lo, hi)
  }

  /** The answer is the start of a non-empty area. */
  ghost predicate IsTaken(l: seq<Area>, r: Result<Addr>) {
    r.Ok? && exists i :: 0 <= i < |l| && l[i].start == r.value && l[i].size > 0
  }

  /** An area in front of area `j` starts where `j` does and is not empty. */
  ghost predicate SharesStart(l: seq<Area>, j: nat)
    requires j < |l|
  {
    exists i :: 0 <= i < j && l[i].start == l[j].start && l[i].size > 0
  }

  /** Where the scan stops looking for space after area `j`. */
  function NextStart(l: seq<Area>, j: nat, hi: Addr): Addr
    requires j < |l|
  {
    if j + 1 < |l| && l[j + 1].start < hi then l[j + 1].start else hi
  }

  /**
   The empty area `j`, above the start of the search, takes the scan back to the start of the non-empty
   area it shares its start with: no gap was found before it, and there seems to be room after it.
   */
  ghost predicate MisledAt(l: seq<Area>, j: nat, size: nat, lo: Addr, hi: Addr) {
    && j < |l| && l[j].size == 0 && lo < l[j].start < hi && SharesStart(l, j)
    && l[j].start + size <= NextStart(l, j, hi)
    && forall g: Addr :: IsGap(l, g, size, lo, hi) ==> l[j].start < g + size
  }

  ghost predicate Misled(l: seq<Area>, from: nat, size: nat, lo: Addr, hi: Addr) {
    exists j: nat :: from <= j && MisledAt(l, j, size, lo, hi)
  }

  /** The scan has seen areas up to `k` and `prevEnd` is the furthest end. */
  ghost predicate ScanState(l: seq<Area>, k: nat, size: nat, lo: Addr, hi: Addr, prevEnd: Addr) {
    && ListWf(l) && k <= |l| && size > 0 && IsPage(prevEnd) && lo <= prevEnd
    && (forall i :: 0 <= i < k ==> l[i].End() <= prevEnd)
    && (prevEnd == lo || exists i :: 0 <= i < k && l[i].End() == prevEnd)
    && NoGapBelow(l, size, lo, hi, prevEnd)
  }

  /** The area before `k` is empty and shares its start with area `i`, which ends furthest. */
  ghost predicate ScanBack(l: seq<Area>, k: nat, size: nat, lo: Addr, hi: Addr, i: nat) {
    && ListWf(l) && 0 < k <= |l| && size > 0 && i < k - 1
    && l[k - 1].size == 0 && lo < l[k - 1].start < hi && l[i].start == l[k - 1].start && l[i].size > 0
    && (forall n :: 0 <= n < k ==> l[n].End() <= l[i].End())
    && NoGapBelow(l, size, lo, hi, l[i].End())
  }

  lemma StartOverlapping(l: seq<Area>, i: nat, k: nat)
    requires ListWf(l) && i < k < |l|
    ensures l[i].start <= l[k].start
    ensures l[k].start < l[i].End() ==> l[k].start == l[i].start && l[k].size == 0 && l[i].size > 0
    ensures l[i].size > 0 && l[i].start < l[k].start ==> l[i].End() <= l[k].start
  {
    assert !AreasOverlap(l[i], l[k]);
  }

  lemma LaterStarts(l: seq<Area>, k: nat)
    requires ListWf(l) && k < |l|
    ensures forall i :: k <= i < |l| ==> l[k].start <= l[i].start
  {
  }

  /** The scan ends in a gap, or at the end of the range without one. */
  lemma ScanEnds(l: seq<Area>, k: nat, size: nat, lo: Addr, hi: Addr, prevEnd: Addr, bound: Addr)
    requires ScanState(l, k, size, lo, hi, prevEnd) && bound <= hi
    requires (k == |l| && bound == hi) || (k < |l| && bound == hi <= l[k].start) || (k < |l| && bound == l[k].start)
    ensures prevEnd + size <= bound ==>
              IsLowestGap(l, size, lo, hi, Ok(prevEnd)) && !Misled(l, k, size, lo, hi)
    ensures bound == hi && prevEnd + size > hi ==>
              IsLowestGap(l, size, lo, hi, Err(NotFound)) && !Misled(l, k, size, lo, hi)
  {
    hide IsPage, AreaWf;
    if k < |l| { LaterStarts(l, k); }
    if prevEnd + size <= bound { assert IsGap(l, prevEnd, size, lo, hi); }
  }

  lemma ScanStateNext(l: seq<Area>, k: nat, size: nat, lo: Addr, hi: Addr, prevEnd: Addr)
    requires ScanState(l, k, size, lo, hi, prevEnd) && k < |l| && l[k].End() >= prevEnd
    requires l[k].start < prevEnd + size
    ensures ScanState(l, k + 1, size, lo, hi, l[k].End()) && !MisledAt(l, k, size, lo, hi)
  {
    hide IsPage;
    SpaceHasEnd(l, k);
    NoGapBeforeEnd(l, k, size, lo, hi, prevEnd);
  }

  lemma SpaceHasEnd(l: seq<Area>, k: nat)
    requires ListWf(l) && k < |l|
    ensures AreaWf(l[k]) && IsPage(l[k].start) && IsPage(l[k].End())
  {
    AreaEndIsPage(l[k]);
  }

  lemma MisledFromNext(l: seq<Area>, k: nat, size: nat, lo: Addr, hi: Addr)
    ensures !MisledAt(l, k, size, lo, hi) ==> (Misled(l, k, size, lo, hi) <==> Misled(l, k + 1, size, lo, hi))
    ensures MisledAt(l, k, size, lo, hi) ==> Misled(l, k, size, lo, hi)
  {
    hide MisledAt;
    if j: nat :| k <= j && MisledAt(l, j, size, lo, hi) { assert j == k || k + 1 <= j; }
  }

  /** From a scan in order the answer is right exactly when no area ahead misleads it. */
  lemma {:induction false} ScanRightIff(l: seq<Area>, k: nat, size: nat, lo: Addr, hi: Addr, prevEnd: Addr)
    requires ScanState(l, k, size, lo, hi, prevEnd)
    ensures IsLowestGap(l, size, lo, hi, GapScan(l, k, size, lo, hi, prevEnd)) <==> !Misled(l, k, size, lo, hi)
    ensures Misled(l, k, size, lo, hi) ==> IsTaken(l, GapScan(l, k, size, lo, hi, prevEnd))
    decreases |l| - k
  {
    hide IsPage, PageUp, PageDown, IsLowestGap, Misled, ScanState, ScanBack, MisledAt, IsTaken;
    ScanFacts(l, k, size, lo, hi, prevEnd);
    if k == |l| || (l[k].End() > lo && l[k].start >= hi) {
      ScanEnds(l, k, size, lo, hi, prevEnd, hi);
    } else {
      SpaceHasEnd(l, k);
      PageRoundsToItself(l[k].start);
      MisledFromNext(l, k, size, lo, hi);
      if l[k].End() <= lo {
        ScanSkips(l, k, size, lo, hi, prevEnd);
        ScanRightIff(l, k + 1, size, lo, hi, prevEnd);
      } else if prevEnd + size <= l[k].start {
        ScanEnds(l, k, size, lo, hi, prevEnd, l[k].start);
      } else if l[k].End() >= prevEnd {
        ScanStateNext(l, k, size, lo, hi, prevEnd);
        ScanRightIff(l, k + 1, size, lo, hi, l[k].End());
      } else {
        var i := ScanTurnsBack(l, k, size, lo, hi, prevEnd);
        ScanBackIff(l, k + 1, size, lo, hi, i);
      }
    }
  }

  lemma ScanFacts(l: seq<Area>, k: nat, size: nat, lo: Addr, hi: Addr, prevEnd: Addr)
    requires ScanState(l, k, size, lo, hi, prevEnd)
    ensures ListWf(l) && k <= |l| && size > 0 && lo <= prevEnd && PageUp(prevEnd) == prevEnd
  {
    PageRoundsToItself(prevEnd);
  }

  lemma ScanSkips(l: seq<Area>, k: nat, size: nat, lo: Addr, hi: Addr, prevEnd: Addr)
    requires ScanState(l, k, size, lo, hi, prevEnd) && k < |l| && l[k].End() <= lo
    ensures ScanState(l, k + 1, size, lo, hi, prevEnd) && Max(prevEnd, l[k].End()) == prevEnd
    ensures !MisledAt(l, k, size, lo, hi)
  {
    hide IsPage;
  }

  lemma ScanTurnsBack(l: seq<Area>, k: nat, size: nat, lo: Addr, hi: Addr, prevEnd: Addr) returns (i: nat)
    requires ScanState(l, k, size, lo, hi, prevEnd) && k < |l| && lo < l[k].End() < prevEnd && l[k].start < hi
    ensures ScanBack(l, k + 1, size, lo, hi, i) && l[k].End() == l[k].start
  {
    hide IsPage, AreaWf;
    i :| 0 <= i < k && l[i].End() == prevEnd;
    StartOverlapping(l, i, k);
  }

  /** Once taken back, the scan goes wrong unless the next area, or the end, comes too soon. */
  lemma {:induction false} ScanBackIff(l: seq<Area>, k: nat, size: nat, lo: Addr, hi: Addr, i: nat)
    requires ScanBack(l, k, size, lo, hi, i)
    ensures IsLowestGap(l, size, lo, hi, GapScan(l, k, size, lo, hi, l[k - 1].start))
            <==> !Misled(l, k - 1, size, lo, hi)
    ensures Misled(l, k - 1, size, lo, hi) ==> IsTaken(l, GapScan(l, k, size, lo, hi, l[k - 1].start))
    decreases |l| - k
  {
    hide IsPage, PageUp, PageDown, Misled, ScanState, ScanBack, MisledAt, IsTaken;
    ScanBackFacts(l, k, size, lo, hi, i);
    var a := l[k - 1].start;
    MisledFromNext(l, k - 1, size, lo, hi);
    if k == |l| || l[k].start >= hi {
      ScanBackEnds(l, k, size, lo, hi, i);
    } else {
      SpaceHasEnd(l, k);
      PageRoundsToItself(l[k].start);
      MisledFromNext(l, k, size, lo, hi);
      StartOverlapping(l, k - 1, k);
      if a + size <= l[k].start {
        ScanBackEnds(l, k, size, lo, hi, i);
      } else if l[k].start == a {
        ScanBackStays(l, k, size, lo, hi, i);
        ScanBackIff(l, k + 1, size, lo, hi, i);
      } else {
        ScanRecovers(l, k, size, lo, hi, i);
        ScanRightIff(l, k + 1, size, lo, hi, l[k].End());
      }
    }
  }

  lemma ScanBackFacts(l: seq<Area>, k: nat, size: nat, lo: Addr, hi: Addr, i: nat)
    requires ScanBack(l, k, size, lo, hi, i)
    ensures ListWf(l) && 0 < k <= |l| && size > 0 && lo < l[k - 1].start < hi
    ensures PageUp(l[k - 1].start) == l[k - 1].start
  {
    SpaceHasEnd(l, k - 1);
    PageRoundsToItself(l[k - 1].start);
  }

  lemma ScanBackEnds(l: seq<Area>, k: nat, size: nat, lo: Addr, hi: Addr, i: nat)
    requires ScanBack(l, k, size, lo, hi, i)
    requires k == |l| || l[k].start >= hi || l[k - 1].start + size <= l[k].start
    ensures IsTaken(l, Ok(l[k - 1].start))
    ensures var a := l[k - 1].start;
            && (a + size <= NextStart(l, k - 1, hi) ==>
                  !IsLowestGap(l, size, lo, hi, Ok(a)) && MisledAt(l, k - 1, size, lo, hi))
            && (a + size > NextStart(l, k - 1, hi) ==>
                  IsLowestGap(l, size, lo, hi, Err(NotFound)) && !Misled(l, k - 1, size, lo, hi))
  {
    hide IsPage, AreaWf;
    var a := l[k - 1].start;
    assert SharesStart(l, k - 1);
    if k < |l| { LaterStarts(l, k); }
    assert !IsGap(l, a, size, lo, hi);
  }

  lemma ScanBackStays(l: seq<Area>, k: nat, size: nat, lo: Addr, hi: Addr, i: nat)
    requires ScanBack(l, k, size, lo, hi, i) && k < |l| && l[k].start == l[k - 1].start
    ensures ScanBack(l, k + 1, size, lo, hi, i) && l[k].End() == l[k].start && !MisledAt(l, k - 1, size, lo, hi)
  {
    hide IsPage, AreaWf;
    StartOverlapping(l, i, k);
  }

  lemma ScanRecovers(l: seq<Area>, k: nat, size: nat, lo: Addr, hi: Addr, i: nat)
    requires ScanBack(l, k, size, lo, hi, i) && k < |l| && l[k - 1].start < l[k].start < hi
    requires l[k].start < l[k - 1].start + size
    ensures ScanState(l, k + 1, size, lo, hi, l[k].End())
    ensures !MisledAt(l, k - 1, size, lo, hi) && !MisledAt(l, k, size, lo, hi)
    ensures lo < l[k].End()
  {
    hide IsPage;
    SpaceHasEnd(l, k);
    SpaceHasEnd(l, i);
    StartOverlapping(l, i, k);
    NoGapBeforeEnd(l, k, size, lo, hi, l[i].End());
    forall n: nat | n < k ensures l[n].End() <= l[k].start { assert l[n].End() <= l[i].End(); }
  }

  /**
   First-fit gap search.  For a positive size it returns the lowest gap of the page-rounded range, and
   NotFound exactly when there is none, if and only if no empty area misleads it.
   */
  method FindGap(l: seq<Area>, size: nat, rangeStart: Addr, rangeEnd: Addr) returns (r: Result<Addr>)
    requires ListWf(l)
    requires rangeStart + PAGE <= Bits.WORD && rangeEnd < Bits.WORD
    ensures r == GapScan(l, 0, size, PageUp(rangeStart), SearchEnd(rangeEnd), PageUp(rangeStart))
    ensures size > 0 ==> (IsLowestGap(l, size, PageUp(rangeStart), SearchEnd(rangeEnd), r)
                          <==> !Misled(l, 0, size, PageUp(rangeStart), SearchEnd(rangeEnd)))
    ensures size > 0 && Misled(l, 0, size, PageUp(rangeStart), SearchEnd(rangeEnd)) ==> IsTaken(l, r)
  {
    hide PageUp, PageDown, IsPage;
    var searchStart, searchEnd := PageUp(rangeStart), SearchEnd(rangeEnd);
    SpanIsPages(rangeStart, rangeStart);
    if size > 0 { ScanRightIff(l, 0, size, searchStart, searchEnd, searchStart); }
    var prevEnd: Addr := searchStart;
    var k := 0;
    while k < |l|
      invariant 0 <= k <= |l|
      invariant GapScan(l, k, size, searchStart, searchEnd, prevEnd)
                == GapScan(l, 0, size, searchStart, searchEnd, searchStart)
    {
      var currStart, currEnd := l[k].start, l[k].End();
      if currEnd <= searchStart {
        prevEnd := Max(prevEnd, currEnd);
        k := k + 1;
        continue;
      }
      if currStart >= searchEnd {
        break;
      }
      var gapStart, gapEnd := PageUp(prevEnd), PageDown(currStart);
      if gapEnd > gapStart && gapEnd - gapStart >= size {
        return Ok(gapStart);
      }
      prevEnd := currEnd;
      k := k + 1;
    }
    var gapStart := PageUp(prevEnd);
    if searchEnd > gapStart && searchEnd - gapStart >= size {
      return Ok(gapStart);
    }
    return Err(NotFound);
  }

  /** Whatever the scan returns is page-aligned and leaves room in the range. */
  lemma {:induction false} GapScanBounds(l: seq<Area>, k: nat, size: nat, lo: Addr, hi: Addr, prevEnd: Addr)
    requires k <= |l|
    ensures var r := GapScan(l, k, size, lo, hi, prevEnd); r.Ok? ==> IsPage(r.value) && r.value + size <= hi
    decreases |l| - k
  {
    SpanIsPages(prevEnd, prevEnd);
    hide PageUp, IsPage;
    if !(k == |l| || (l[k].End() > lo && l[k].start >= hi)) {
      if l[k].End() <= lo { GapScanBounds(l, k + 1, size, lo, hi, Max(prevEnd, l[k].End())); }
      else { GapScanBounds(l, k + 1, size, lo, hi, l[k].End()); }
    }
  }

  /** On an ordered list nothing misleads the search. */
  lemma OrderedIsNotMisled(l: seq<Area>, size: nat, lo: Addr, hi: Addr)
    requires Ordered(l)
    ensures !Misled(l, 0, size, lo, hi)
  {
  }

  /** A found gap can be added: `AddArea` never rejects it for overlap. */
  lemma GapNeverCollides(l: seq<Area>, g: Addr, size: nat, lo: Addr, hi: Addr, vma: Area)
    requires IsGap(l, g, size, lo, hi) && vma.start == g && vma.size == size
    ensures !Collides(l, vma)
  {
  }

  /**
   An empty area that shares its start with a full one misleads the scan: in this well-formed list
   the address returned for two pages lies inside the first area.
   */
  lemma EmptyAreaMisleadsGapScan(f: AreaFlags)
    ensures var full := Area(PAGE, PAGE, f, Anonymous);
            var l := [full, Area(PAGE, 0, f, Anonymous), Area(4 * PAGE, PAGE, f, Anonymous)];
            && ListWf(l) && GapScan(l, 0, 2 * PAGE, 0, 16 * PAGE, 0) == Ok(PAGE) && IsAddrInArea(full, PAGE)
            && Misled(l, 0, 2 * PAGE, 0, 16 * PAGE)
  {
    var full := Area(PAGE, PAGE, f, Anonymous);
    var l := [full, Area(PAGE, 0, f, Anonymous), Area(4 * PAGE, PAGE, f, Anonymous)];
    assert GapScan(l, 2, 2 * PAGE, 0, 16 * PAGE, PAGE) == Ok(PAGE);
    assert GapScan(l, 1, 2 * PAGE, 0, 16 * PAGE, 2 * PAGE) == Ok(PAGE);
    ScanRightIff(l, 0, 2 * PAGE, 0, 16 * PAGE, 0);
    assert !IsGap(l, PAGE, 2 * PAGE, 0, 16 * PAGE) by { assert l[0].start < 3 * PAGE && PAGE < l[0].End(); }
  }

  lemma PositiveAreasAreOrdered(l: seq<Area>)
    requires ListWf(l) && forall i :: 0 <= i < |l| ==> l[i].size > 0
    ensures Ordered(l)
  {
    forall i, j | 0 <= i < j < |l| ensures l[i].End() <= l[j].start {
      assert l[i].start <= l[j].start && !AreasOverlap(l[i], l[j]);
    }
  }

  /** An empty area at the start of a non-empty one. */
  ghost predicate Misplaced(l: seq<Area>, a: Area) {
    a.size == 0 && exists i :: 0 <= i < |l| && l[i].start == a.start && l[i].size > 0
  }

  lemma MisplacedBreaksOrder(l: seq<Area>, a: Area)
    requires Ordered(l) && Misplaced(l, a)
    ensures !Ordered(Insert(l, a))
  {
    hide Insert;
    var n, r := InsertPos(l, a), Insert(l, a);
    var i: nat :| i < |l| && l[i].start == a.start && l[i].size > 0;
    InsertAt(l, a, i);
    InsertAt(l, a, n);
    assert i < n;
    assert r[i].End() > r[n].start;
  }

  /** A well-placed area lies between its neighbours. */
  lemma InsertedBetween(l: seq<Area>, a: Area, i: nat)
    requires Ordered(l) && !Collides(l, a) && !Misplaced(l, a) && i < |l|
    ensures if i < InsertPos(l, a) then l[i].End() <= a.start else a.End() <= l[i].start
  {
    var n := InsertPos(l, a);
    assert !AreasOverlap(l[i], a);
    if n < i { assert l[n].End() <= l[i].start; }
  }

  /**
   Accepting an area keeps the list in order exactly when it is not an empty area placed at the
   start of a non-empty one.
   */
  lemma InsertKeepsOrderedIff(l: seq<Area>, a: Area)
    requires Ordered(l) && !Collides(l, a)
    ensures Ordered(Insert(l, a)) <==> !Misplaced(l, a)
  {
    hide Insert, Misplaced, Collides;
    if Misplaced(l, a) {
      MisplacedBreaksOrder(l, a);
    } else {
      var r := Insert(l, a);
      InsertAt(l, a, 0);
      forall i, j | 0 <= i < j < |r| ensures r[i].End() <= r[j].start {
        InsertedPair(l, a, i, j);
      }
    }
  }

  lemma InsertedPair(l: seq<Area>, a: Area, i: nat, j: nat)
    requires Ordered(l) && !Collides(l, a) && !Misplaced(l, a) && i < j <= |l|
    ensures |Insert(l, a)| == |l| + 1 && Insert(l, a)[i].End() <= Insert(l, a)[j].start
  {
    hide Insert, Misplaced, Collides;
    var n := InsertPos(l, a);
    InsertAt(l, a, i);
    InsertAt(l, a, j);
    if i == n { InsertedBetween(l, a, j - 1); }
    if j == n { InsertedBetween(l, a, i); }
  }
}
