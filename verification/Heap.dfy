/**
 Aligned kernel allocation (`Heap::MallocAligned`, `Heap::FreeAligned`).

 The block allocators behind `Heap::Malloc` are represented by their answer: either an error or the
 address of a block that overlaps no live block.  Memory is a map from addresses to bytes, so the
 header in front of an aligned block is eight real bytes that a stray write could destroy.
 */
module KernelHeap {
  import opened Bits

  const HEADER_SIZE: nat := 8

  datatype Answer = OutOfMemory | Block(ptr: nat)
  datatype Outcome = InvalidArgument | AllocationFailed | Allocated(ptr: nat)

  type Memory = map<nat, nat>

  // ---------------------------------------------------------------------------------------------
  // Pointers as bytes
  // ---------------------------------------------------------------------------------------------

  /** The lowest `n` bytes of a word, least significant first. */
  function PtrBytes(x: nat, n: nat): (bs: seq<nat>)
    ensures |bs| == n
  {
    if n == 0 then [] else [x % 256] + PtrBytes(x / 256, n - 1)
  }

  function PtrValue(bs: seq<nat>): nat {
    if bs == [] then 0 else bs[0] + 256 * PtrValue(bs[1..])
  }

  function Pow256(n: nat): nat { if n == 0 then 1 else 256 * Pow256(n - 1) }

  lemma {:induction false} PtrRoundTrip(x: nat, n: nat)
    requires x < Pow256(n)
    ensures PtrValue(PtrBytes(x, n)) == x
  {
    if n > 0 {
      PtrRoundTrip(x / 256, n - 1);
      assert PtrBytes(x, n)[1..] == PtrBytes(x / 256, n - 1);
    }
  }

  lemma WordIsEightBytes()
    ensures Pow256(HEADER_SIZE) == WORD
  {
    assert Pow256(2) == 0x1_0000 && Pow256(4) == 0x1_0000_0000;
    assert Pow256(6) == 0x1_0000_0000_0000;
  }

  function Peek(mem: Memory, a: nat): nat { if a in mem then mem[a] else 0 }

  function GetBytes(mem: Memory, a: nat, n: nat): (bs: seq<nat>)
    ensures |bs| == n && forall i :: 0 <= i < n ==> bs[i] == Peek(mem, a + i)
  {
    if n == 0 then [] else GetBytes(mem, a, n - 1) + [Peek(mem, a + n - 1)]
  }

  function PutBytes(mem: Memory, a: nat, bs: seq<nat>): (m: Memory)
    ensures forall p: nat :: Peek(m, p) == if a <= p < a + |bs| then bs[p - a] else Peek(mem, p)
    decreases |bs|
  {
    if bs == [] then mem else PutBytes(mem[a := bs[0]], a + 1, bs[1..])
  }

  // ---------------------------------------------------------------------------------------------
  // The heap and its operations
  // ---------------------------------------------------------------------------------------------

  /** What a caller of `MallocAligned` was given. */
  datatype Grant = Grant(raw: nat, size: nat, alignment: nat)

  /** Live raw blocks with their sizes, and the aligned blocks handed out. */
  datatype State = State(mem: Memory, blocks: map<nat, nat>, grants: map<nat, Grant>)

  predicate Apart(a: nat, n: nat, b: nat, m: nat) { a + n <= b || b + m <= a }

  /** Two non-empty blocks are apart exactly when no address lies in both. */
  lemma ApartIffDisjoint(a: nat, n: nat, b: nat, m: nat)
    requires n > 0 && m > 0
    ensures Apart(a, n, b, m) <==> forall x: nat :: InBlock(x, a, n) ==> !InBlock(x, b, m)
  {
    if !Apart(a, n, b, m) {
      var x := if a < b then b else a;
      assert InBlock(x, a, n) && InBlock(x, b, m);
    }
  }

  ghost predicate InBlock(x: nat, a: nat, n: nat) { a <= x < a + n }

  /** A block the raw allocator may answer with. */
  ghost predicate Fresh(s: State, ptr: nat, size: nat) {
    0 < ptr && 0 < size && ptr + size <= WORD && forall b :: b in s.blocks ==> Apart(ptr, size, b, s.blocks[b])
  }

  /** The number of bytes requested from `Malloc`, as the word arithmetic computes it. */
  function RawSize(size: nat, alignment: nat): nat { (size + alignment + HEADER_SIZE) % WORD }

  /** The header ends where the aligned block begins. */
  function HeaderAddr(ptr: nat): nat { (ptr - HEADER_SIZE) % WORD }

  lemma HeaderAddrIs(ptr: nat)
    requires HEADER_SIZE <= ptr <= WORD
    ensures HeaderAddr(ptr) == ptr - HEADER_SIZE
  {
  }

  function AlignedIn(raw: nat, alignment: nat): nat
    requires raw < WORD && alignment < WORD
  {
    AlignUp((raw + HEADER_SIZE) % WORD, alignment)
  }

  function AllocAligned(s: State, size: nat, alignment: nat, answer: Answer): (State, Outcome)
    requires alignment < WORD && (answer.Block? ==> answer.ptr < WORD)
  {
    if !IsPowerOfTwo(alignment) then (s, InvalidArgument)
    else if RawSize(size, alignment) == 0 then (s, InvalidArgument)
    else if answer.OutOfMemory? then (s, AllocationFailed)
    else
      var p := AlignedIn(answer.ptr, alignment);
      (State(PutBytes(s.mem, HeaderAddr(p), PtrBytes(answer.ptr, HEADER_SIZE)),
             s.blocks[answer.ptr := RawSize(size, alignment)],
             s.grants[p := Grant(answer.ptr, size, alignment)]), Allocated(p))
  }

  /** The raw pointer `FreeAligned` reads back from the header. */
  function HeaderOf(mem: Memory, ptr: nat): nat { PtrValue(GetBytes(mem, HeaderAddr(ptr), HEADER_SIZE)) }

  function ReleaseAligned(s: State, ptr: nat): State {
    if ptr == 0 then s else s.(blocks := s.blocks - {HeaderOf(s.mem, ptr)}, grants := s.grants - {ptr})
  }

  datatype Op =
    | MallocAligned(size: nat, alignment: nat, answer: Answer)
    | FreeAligned(ptr: nat)
    | Malloc(bytes: nat, answer: Answer)
    | Free(ptr: nat)
    | Write(addr: nat, byte: nat)

  /** The block was handed out by plain `Malloc`. */
  ghost predicate IsPlain(s: State, b: nat) {
    b in s.blocks && forall p :: p in s.grants ==> s.grants[p].raw != b
  }

  /** The address lies in memory that some caller owns. */
  ghost predicate Owned(s: State, a: nat) {
    || (exists p :: p in s.grants && p <= a < p + s.grants[p].size)
    || (exists b: nat :: IsPlain(s, b) && b <= a < b + s.blocks[b])
  }

  ghost predicate Enabled(s: State, op: Op) {
    match op
    case MallocAligned(size, alignment, answer) =>
      && size + alignment + HEADER_SIZE < WORD
      && (answer.Block? ==> answer.ptr < WORD && Fresh(s, answer.ptr, RawSize(size, alignment)))
    case FreeAligned(ptr) => ptr == 0 || ptr in s.grants
    case Malloc(bytes, answer) => answer.Block? ==> Fresh(s, answer.ptr, bytes)
    case Free(ptr) => ptr == 0 || IsPlain(s, ptr)
    case Write(addr, _) => Owned(s, addr)
  }

  ghost function Apply(s: State, op: Op): State
    requires Enabled(s, op)
  {
    match op
    case MallocAligned(size, alignment, answer) => AllocAligned(s, size, alignment, answer).0
    case FreeAligned(ptr) => ReleaseAligned(s, ptr)
    case Malloc(bytes, answer) => if answer.Block? then s.(blocks := s.blocks[answer.ptr := bytes]) else s
    case Free(ptr) => s.(blocks := s.blocks - {ptr})
    case Write(addr, byte) => s.(mem := PutBytes(s.mem, addr, [byte]))
  }

  // ---------------------------------------------------------------------------------------------
  // What every run keeps
  // ---------------------------------------------------------------------------------------------

  ghost predicate BlocksApart(blocks: map<nat, nat>) {
    && (forall b :: b in blocks ==> 0 < b && 0 < blocks[b] && b + blocks[b] <= WORD)
    && (forall b, c :: b in blocks && c in blocks && b != c ==> Apart(b, blocks[b], c, blocks[c]))
  }

  /** The aligned block and its header lie inside the raw block, and the header names it. */
  ghost predicate GrantOk(s: State, p: nat) {
    p in s.grants && var g := s.grants[p];
    && g.raw in s.blocks && g.raw + HEADER_SIZE <= p && p + g.size <= g.raw + s.blocks[g.raw]
    && g.alignment > 0 && p % g.alignment == 0
    && GetBytes(s.mem, p - HEADER_SIZE, HEADER_SIZE) == PtrBytes(g.raw, HEADER_SIZE)
  }

  ghost predicate HeapInv(s: State) {
    && BlocksApart(s.blocks)
    && (forall p :: p in s.grants ==> GrantOk(s, p))
    && (forall p, q :: p in s.grants && q in s.grants && p != q ==> s.grants[p].raw != s.grants[q].raw)
  }

  /**
   The aligned block with its header fits the raw block that was requested exactly when the request
   does not wrap the word.
   */
  lemma PayloadFitsIff(raw: nat, size: nat, alignment: nat)
    requires size < WORD && alignment < WORD && IsPowerOfTwo(alignment)
    requires 0 < raw && raw + RawSize(size, alignment) <= WORD && RawSize(size, alignment) > 0
    ensures var p := AlignedIn(raw, alignment);
            (raw + HEADER_SIZE <= p && p + size <= raw + RawSize(size, alignment))
            <==> size + alignment + HEADER_SIZE < WORD
    ensures alignment > 0 && (size + alignment + HEADER_SIZE < WORD ==> AlignedIn(raw, alignment) % alignment == 0)
  {
    hide AlignUp;
    if size + alignment + HEADER_SIZE < WORD {
      assert RawSize(size, alignment) == size + alignment + HEADER_SIZE;
      AlignUpIffNoWrap(raw + HEADER_SIZE, alignment);
    } else {
      WrappedTooSmall(raw, size, alignment);
    }
  }

  lemma WrappedTooSmall(raw: nat, size: nat, alignment: nat)
    requires size < WORD && alignment < WORD && size + alignment + HEADER_SIZE >= WORD
    ensures RawSize(size, alignment) < HEADER_SIZE + size
  {
    var total := size + alignment + HEADER_SIZE;
    assert total % WORD <= total - WORD;
  }

  /** The headers and payloads of live aligned blocks never overlap. */
  lemma PayloadsApart(s: State, p: nat, q: nat)
    requires HeapInv(s) && p in s.grants && q in s.grants && p != q
    ensures Apart(p - HEADER_SIZE, s.grants[p].size + HEADER_SIZE, q - HEADER_SIZE, s.grants[q].size + HEADER_SIZE)
  {
    assert GrantOk(s, p) && GrantOk(s, q);
  }

  lemma GrantParts(s: State, p: nat)
    requires BlocksApart(s.blocks) && GrantOk(s, p)
    ensures s.grants[p].raw < WORD && HEADER_SIZE <= p <= WORD
    ensures GetBytes(s.mem, p - HEADER_SIZE, HEADER_SIZE) == PtrBytes(s.grants[p].raw, HEADER_SIZE)
  {
    hide GetBytes, PtrBytes;
  }

  /** `FreeAligned` hands exactly the raw pointer back to `Free`. */
  lemma HeaderNamesRaw(s: State, p: nat)
    requires HeapInv(s) && p in s.grants
    ensures p >= HEADER_SIZE && HeaderOf(s.mem, p) == s.grants[p].raw
  {
    hide PtrBytes, PtrValue, HeaderAddr, Pow256, GrantOk, BlocksApart, GetBytes;
    assert GrantOk(s, p);
    GrantParts(s, p);
    WordIsEightBytes();
    PtrRoundTrip(s.grants[p].raw, HEADER_SIZE);
    HeaderAddrIs(p);
  }

  /** A write that no header byte sees leaves every grant in order. */
  lemma HeaderSurvives(s: State, mem: Memory, p: nat)
    requires GrantOk(s, p)
    requires forall a :: p - HEADER_SIZE <= a < p ==> Peek(mem, a) == Peek(s.mem, a)
    ensures GrantOk(s.(mem := mem), p)
  {
    assert GetBytes(mem, p - HEADER_SIZE, HEADER_SIZE) == GetBytes(s.mem, p - HEADER_SIZE, HEADER_SIZE);
  }

  lemma OwnedMissesHeaders(s: State, a: nat, p: nat)
    requires HeapInv(s) && Owned(s, a) && p in s.grants
    ensures a < p - HEADER_SIZE || p <= a
  {
    assert GrantOk(s, p);
    if q :| q in s.grants && q <= a < q + s.grants[q].size {
      assert GrantOk(s, q);
    }
  }

  lemma WriteKeepsInv(s: State, a: nat, byte: nat)
    requires HeapInv(s) && Owned(s, a)
    ensures HeapInv(s.(mem := PutBytes(s.mem, a, [byte])))
  {
    hide Owned, GrantOk;
    var mem := PutBytes(s.mem, a, [byte]);
    forall p | p in s.grants ensures GrantOk(s.(mem := mem), p) {
      OwnedMissesHeaders(s, a, p);
      HeaderSurvives(s, mem, p);
    }
  }

  lemma FreshStaysApart(s: State, ptr: nat, size: nat)
    requires BlocksApart(s.blocks) && Fresh(s, ptr, size)
    ensures ptr !in s.blocks && BlocksApart(s.blocks[ptr := size])
  {
    assert ptr in s.blocks ==> Apart(ptr, size, ptr, s.blocks[ptr]);
  }

  lemma MallocKeepsInv(s: State, ptr: nat, size: nat)
    requires HeapInv(s) && Fresh(s, ptr, size)
    ensures HeapInv(s.(blocks := s.blocks[ptr := size]))
    ensures ptr !in s.blocks && forall p :: p in s.grants ==> s.grants[p].raw != ptr
  {
    hide BlocksApart;
    FreshStaysApart(s, ptr, size);
    var s' := s.(blocks := s.blocks[ptr := size]);
    forall p | p in s.grants ensures GrantOk(s', p) && s.grants[p].raw != ptr {
      assert GrantOk(s, p);
    }
  }

  lemma FreeKeepsInv(s: State, b: nat, gone: set<nat>)
    requires HeapInv(s)
    requires forall p :: p in s.grants && s.grants[p].raw == b ==> p in gone
    ensures HeapInv(s.(blocks := s.blocks - {b}, grants := s.grants - gone))
  {
    var s' := s.(blocks := s.blocks - {b}, grants := s.grants - gone);
    forall p | p in s'.grants ensures GrantOk(s', p) { assert GrantOk(s, p); }
  }

  lemma AllocAlignedKeepsInv(s: State, size: nat, alignment: nat, raw: nat)
    requires HeapInv(s) && IsPowerOfTwo(alignment) && size + alignment + HEADER_SIZE < WORD
    requires raw < WORD && Fresh(s, raw, RawSize(size, alignment))
    ensures var (s', r) := AllocAligned(s, size, alignment, Block(raw));
            HeapInv(s') && r == Allocated(AlignedIn(raw, alignment)) && r.ptr !in s.grants && r.ptr > 0
            && GrantOk(s', r.ptr)
  {
    hide BlocksApart, Fresh, IsPowerOfTwo, AlignUp, AlignedIn, PtrBytes, PutBytes, GetBytes, RawSize, HeaderAddr;
    hide HeapInv, Apart;
    var n, p := RawSize(size, alignment), AlignedIn(raw, alignment);
    FreshBounds(s, raw, n);
    PayloadFitsIff(raw, size, alignment);
    HeaderAddrIs(p);
    MallocKeepsInv(s, raw, n);
    GrantKeepsInv(s.(blocks := s.blocks[raw := n]), p, Grant(raw, size, alignment));
  }

  /** For every request: a block is in order exactly when the size it was requested with did not wrap. */
  lemma AllocAlignedKeepsInvIff(s: State, size: nat, alignment: nat, answer: Answer)
    requires HeapInv(s) && size < WORD && alignment < WORD
    requires answer.Block? ==> answer.ptr < WORD && Fresh(s, answer.ptr, RawSize(size, alignment))
    ensures var (s', r) := AllocAligned(s, size, alignment, answer);
            HeapInv(s') <==> (r.Allocated? ==> size + alignment + HEADER_SIZE < WORD)
  {
    hide BlocksApart, Fresh, IsPowerOfTwo, AlignUp, AlignedIn, PtrBytes, PutBytes, GetBytes, RawSize, HeaderAddr;
    var (s', r) := AllocAligned(s, size, alignment, answer);
    if r.Allocated? {
      FreshBounds(s, answer.ptr, RawSize(size, alignment));
      PayloadFitsIff(answer.ptr, size, alignment);
      if size + alignment + HEADER_SIZE < WORD {
        AllocAlignedKeepsInv(s, size, alignment, answer.ptr);
      } else {
        assert !GrantOk(s', AlignedIn(answer.ptr, alignment));
      }
    }
  }

  /** Carving an aligned block out of a raw block nobody uses. */
  lemma GrantKeepsInv(s: State, p: nat, g: Grant)
    requires HeapInv(s) && IsPlain(s, g.raw)
    requires g.raw + HEADER_SIZE <= p && p + g.size <= g.raw + s.blocks[g.raw]
    requires g.alignment > 0 && p % g.alignment == 0
    ensures var s' := State(PutBytes(s.mem, p - HEADER_SIZE, PtrBytes(g.raw, HEADER_SIZE)), s.blocks, s.grants[p := g]);
            HeapInv(s') && p !in s.grants && GrantOk(s', p)
  {
    hide BlocksApart, PtrBytes, PutBytes, GetBytes;
    var bs := PtrBytes(g.raw, HEADER_SIZE);
    var mem := PutBytes(s.mem, p - HEADER_SIZE, bs);
    assert GetBytes(mem, p - HEADER_SIZE, HEADER_SIZE) == bs;
    forall q | q in s.grants ensures q != p && GrantOk(s.(mem := mem), q) {
      NewBlockMisses(s, g.raw, p, q);
      HeaderSurvives(s, mem, q);
    }
  }

  lemma FreshBounds(s: State, ptr: nat, size: nat)
    requires Fresh(s, ptr, size)
    ensures 0 < ptr && 0 < size && ptr + size <= WORD
  {
  }

  /** The header of an older aligned block lies outside the new raw block. */
  lemma NewBlockMisses(s: State, raw: nat, p: nat, q: nat)
    requires HeapInv(s) && q in s.grants && raw in s.blocks && s.grants[q].raw != raw
    requires raw + HEADER_SIZE <= p <= raw + s.blocks[raw]
    ensures q != p && Apart(q - HEADER_SIZE, HEADER_SIZE, p - HEADER_SIZE, HEADER_SIZE)
  {
    assert GrantOk(s, q);
  }

  lemma ApplyKeepsInv(s: State, op: Op)
    requires HeapInv(s) && Enabled(s, op)
    ensures HeapInv(Apply(s, op))
  {
    hide HeapInv, Fresh, Owned, AlignedIn, IsPowerOfTwo;
    match op
    case MallocAligned(size, alignment, answer) =>
      if IsPowerOfTwo(alignment) && answer.Block? { AllocAlignedKeepsInv(s, size, alignment, answer.ptr); }
    case FreeAligned(ptr) =>
      if ptr != 0 {
        HeaderNamesRaw(s, ptr);
        OneGrantPerBlock(s, ptr);
        FreeKeepsInv(s, s.grants[ptr].raw, {ptr});
      }
    case Malloc(bytes, answer) =>
      if answer.Block? { MallocKeepsInv(s, answer.ptr, bytes); }
    case Free(ptr) =>
      NullIsNoBlock(s);
      FreeKeepsInv(s, ptr, {});
      assert s.grants - {} == s.grants;
    case Write(addr, byte) =>
      WriteKeepsInv(s, addr, byte);
  }

  lemma OneGrantPerBlock(s: State, ptr: nat)
    requires HeapInv(s) && ptr in s.grants
    ensures forall p :: p in s.grants && s.grants[p].raw == s.grants[ptr].raw ==> p in {ptr}
  {
  }

  lemma NullIsNoBlock(s: State)
    requires HeapInv(s)
    ensures 0 !in s.blocks && forall p :: p in s.grants ==> s.grants[p].raw != 0
  {
    forall p | p in s.grants ensures s.grants[p].raw != 0 { assert GrantOk(s, p); }
  }

  /** Which outcome an aligned allocation has, for every request and every answer of the raw allocator. */
  lemma AllocAlignedOutcome(s: State, size: nat, alignment: nat, answer: Answer)
    requires alignment < WORD && (answer.Block? ==> answer.ptr < WORD)
    ensures var r := AllocAligned(s, size, alignment, answer).1;
            var wraps := (size + alignment + 8) % 0x1_0000_0000_0000_0000 == 0;
            && (r.InvalidArgument? <==> wraps || forall k :: alignment != Pow2(k))
            && (r.AllocationFailed? <==> !r.InvalidArgument? && answer.OutOfMemory?)
            && (r.Allocated? <==> !r.InvalidArgument? && answer.Block?)
            && (!r.Allocated? ==> AllocAligned(s, size, alignment, answer).0 == s)
  {
    hide IsPowerOfTwo, AlignedIn, PutBytes, PtrBytes;
    PowerOfTwoIff(alignment);
  }

  /** Freeing an aligned block takes exactly it and its raw block away, whatever was written in the meantime. */
  lemma FreeAlignedReleases(s: State, p: nat)
    requires HeapInv(s) && p in s.grants
    ensures p > 0 && s.grants[p].raw in s.blocks
    ensures ReleaseAligned(s, p) == s.(blocks := s.blocks - {s.grants[p].raw}, grants := s.grants - {p})
  {
    hide HeaderOf, BlocksApart;
    HeaderNamesRaw(s, p);
    assert GrantOk(s, p);
  }

  /** An allocation followed by its release leaves the blocks and the grants as they were. */
  lemma FreeUndoesAlloc(s: State, size: nat, alignment: nat, raw: nat)
    requires HeapInv(s) && IsPowerOfTwo(alignment) && size + alignment + HEADER_SIZE < WORD
    requires raw < WORD && Fresh(s, raw, RawSize(size, alignment))
    ensures var (s', r) := AllocAligned(s, size, alignment, Block(raw));
            && r.Allocated? && raw !in s.blocks && r.ptr !in s.grants
            && ReleaseAligned(s', r.ptr).blocks == s.blocks && ReleaseAligned(s', r.ptr).grants == s.grants
  {
    hide HeapInv, AlignedIn, IsPowerOfTwo, PutBytes, PtrBytes, RawSize, HeaderOf, HeaderAddr;
    AllocAlignedKeepsInv(s, size, alignment, raw);
    var (s', r) := AllocAligned(s, size, alignment, Block(raw));
    FreeAlignedReleases(s', r.ptr);
    FreshIsNoBlock(s, raw, RawSize(size, alignment));
    assert s.blocks[raw := RawSize(size, alignment)] - {raw} == s.blocks;
    assert s'.grants - {r.ptr} == s.grants;
  }

  lemma FreshIsNoBlock(s: State, raw: nat, n: nat)
    requires HeapInv(s) && Fresh(s, raw, n)
    ensures raw !in s.blocks
  {
  }

  ghost predicate IsRun(s: State, ops: seq<Op>)
    decreases |ops|
  {
    ops == [] || (Enabled(s, ops[0]) && IsRun(Apply(s, ops[0]), ops[1..]))
  }

  ghost function Run(s: State, ops: seq<Op>): State
    requires IsRun(s, ops)
    decreases |ops|
  {
    if ops == [] then s else Run(Apply(s, ops[0]), ops[1..])
  }

  lemma {:induction false} RunKeepsInv(s: State, ops: seq<Op>)
    requires HeapInv(s) && IsRun(s, ops)
    ensures HeapInv(Run(s, ops))
    decreases |ops|
  {
    hide HeapInv, Apply, Enabled;
    if ops != [] {
      ApplyKeepsInv(s, ops[0]);
      RunKeepsInv(Apply(s, ops[0]), ops[1..]);
    }
  }

  /**
   From the empty heap, after any run: aligned blocks and their headers do not overlap, and freeing
   one releases the raw block it was carved from.
   */
  lemma EveryRunFreesRaw(ops: seq<Op>, p: nat, q: nat)
    requires IsRun(State(map[], map[], map[]), ops)
    ensures var s := Run(State(map[], map[], map[]), ops);
            && (p in s.grants ==> HeaderOf(s.mem, p) == s.grants[p].raw && s.grants[p].raw in s.blocks)
            && (p in s.grants && q in s.grants && p != q ==>
                  p >= HEADER_SIZE && q >= HEADER_SIZE
                  && Apart(p - HEADER_SIZE, s.grants[p].size + HEADER_SIZE, q - HEADER_SIZE,
                           s.grants[q].size + HEADER_SIZE))
  {
    hide HeaderOf, IsRun, Run;
    RunKeepsInv(State(map[], map[], map[]), ops);
    var s := Run(State(map[], map[], map[]), ops);
    if p in s.grants { HeaderNamesRaw(s, p); assert GrantOk(s, p); }
    if p in s.grants && q in s.grants && p != q { HeaderNamesRaw(s, q); PayloadsApart(s, p, q); }
  }

  // ---------------------------------------------------------------------------------------------
  // The heap object
  // ---------------------------------------------------------------------------------------------

  class Heap {
    var mem: Memory
    var blocks: map<nat, nat>
    ghost var grants: map<nat, Grant>

    ghost function Now(): State
      reads this
    {
      State(mem, blocks, grants)
    }

    constructor ()
      ensures Now() == State(map[], map[], map[]) && HeapInv(Now())
    {
      mem, blocks, grants := map[], map[], map[];
    }

    /** The answer is what the slab or buddy allocator returns for the requested number of bytes. */
    method MallocAligned(size: nat, alignment: nat, answer: Answer) returns (r: Outcome)
      requires HeapInv(Now()) && alignment < WORD
      requires answer.Block? ==> answer.ptr < WORD && Fresh(Now(), answer.ptr, RawSize(size, alignment))
      modifies this
      ensures (Now(), r) == AllocAligned(old(Now()), size, alignment, answer)
      ensures r.Allocated? && size + alignment + HEADER_SIZE < WORD ==>
                HeapInv(Now()) && GrantOk(Now(), r.ptr) && r.ptr !in old(grants)
    {
      hide HeapInv, Fresh, GrantOk, And, AlignedIn, PtrBytes, PutBytes, RawSize, HeaderAddr;
      if alignment == 0 || And(alignment, alignment - 1) != 0 {
        return InvalidArgument;
      }
      var allocSize := RawSize(size, alignment);
      if allocSize == 0 {
        return InvalidArgument;
      }
      if answer.OutOfMemory? {
        return AllocationFailed;
      }
      var raw := answer.ptr;
      if size + alignment + HEADER_SIZE < WORD {
        AllocAlignedKeepsInv(Now(), size, alignment, raw);
      }
      blocks := blocks[raw := allocSize];
      var aligned := AlignedIn(raw, alignment);
      mem := PutBytes(mem, HeaderAddr(aligned), PtrBytes(raw, HEADER_SIZE));
      grants := grants[aligned := Grant(raw, size, alignment)];
      return Allocated(aligned);
    }

    method FreeAligned(ptr: nat)
      requires HeapInv(Now()) && (ptr == 0 || ptr in grants)
      modifies this
      ensures HeapInv(Now()) && mem == old(mem)
      ensures ptr == 0 ==> Now() == old(Now())
      ensures ptr != 0 ==> grants == old(grants) - {ptr} && blocks == old(blocks) - {old(grants)[ptr].raw}
    {
      hide HeapInv, PtrValue;
      if ptr == 0 {
        return;
      }
      HeaderNamesRaw(Now(), ptr);
      OneGrantPerBlock(Now(), ptr);
      FreeKeepsInv(Now(), grants[ptr].raw, {ptr});
      var raw := PtrValue(GetBytes(mem, HeaderAddr(ptr), HEADER_SIZE));
      blocks := blocks - {raw};
      grants := grants - {ptr};
    }
  }
}
