/**
 The trace ring buffer as a protocol: producers that reserve space, claim a range with a
 compare-and-exchange on the head and copy their message, and one consumer that prints in batches
 (`CommitToLogPtrSingleCore`, `DumpBufferSingleCore`).

 Every access to shared memory is one step, and steps interleave in any order, so the interrupt
 nesting of the kernel is one of the schedules covered.  Three history variables describe what the
 steps mean: `log` is every byte whose range has been claimed, in claiming order; `sent` and `freed`
 count the bytes whose tail update and whose release the consumer has done.
 */
module Trace {
  import opened Bits

  const BATCH_SIZE: nat := 512

  datatype Producer =
    | Idle
    | Starting(msg: string)
    | Failed(msg: string)
    | Reserved(msg: string)
    | Loaded(msg: string, oldHead: nat)
    | Copying(msg: string, oldHead: nat, newHead: nat, start: nat, k: nat)

  datatype Consumer =
    | Resting
    | Looping(left: int, goal: nat)
    | Emitting(left: int, goal: nat, from: nat, size: nat, k: nat)
    | Stored(left: int, goal: nat, size: nat)

  datatype State = State(n: nat, bytesLeft: int, head: nat, tail: nat, buf: string,
                         procs: seq<Producer>, cons: Consumer,
                         log: string, sent: nat, freed: nat, out: string)

  // ---------------------------------------------------------------------------------------------
  // The steps
  // ---------------------------------------------------------------------------------------------

  datatype Step =
    | Begin(i: nat, text: string)
    | Reserve(i: nat)
    | Undo(i: nat)
    | Load(i: nat)
    | Exchange(i: nat)
    | CopyByte(i: nat)
    | Finish(i: nat)
    | DumpStart
    | BatchStart
    | Emit
    | StoreTail
    | Release
    | DumpEnd

  /** Where byte `k` of a message goes: the two pieces of a message that crosses the end. */
  function WriteIndex(n: nat, oldHead: nat, newHead: nat, k: nat): int {
    if newHead < oldHead && k >= n - oldHead then k - (n - oldHead) else oldHead + k
  }

  /** Where byte `k` of a batch is read: the two pieces of a batch that crosses the end. */
  function ReadIndex(n: nat, from: nat, size: nat, k: nat): int {
    if from + size > n && k >= n - from then k - (n - from) else from + k
  }

  function NonNul(s: string): string {
    if s == [] then [] else NonNul(s[..|s| - 1]) + (if s[|s| - 1] != '\0' then [s[|s| - 1]] else [])
  }

  /** The commit neither holds a reservation without a range nor has bytes left to copy. */
  predicate IsCalm(p: Producer) {
    match p
    case Failed(msg) => msg == []
    case Reserved(msg) => msg == []
    case Loaded(msg, _) => msg == []
    case Copying(msg, _, _, _, k) => k == |msg|
    case _ => true
  }

  ghost predicate AllCalm(procs: seq<Producer>) { forall i :: 0 <= i < |procs| ==> IsCalm(procs[i]) }

  ghost predicate Enabled(s: State, e: Step) {
    match e
    case Begin(i, text) => i < |s.procs| && s.procs[i].Idle? && |text| < s.n
    case Reserve(i) => i < |s.procs| && s.procs[i].Starting?
    case Undo(i) => i < |s.procs| && s.procs[i].Failed?
    case Load(i) => i < |s.procs| && s.procs[i].Reserved?
    case Exchange(i) => i < |s.procs| && s.procs[i].Loaded?
    case CopyByte(i) => i < |s.procs| && s.procs[i].Copying? && s.procs[i].k < |s.procs[i].msg|
    case Finish(i) => i < |s.procs| && s.procs[i].Copying? && s.procs[i].k == |s.procs[i].msg|
    case DumpStart => s.cons.Resting? && AllCalm(s.procs)
    case BatchStart => s.cons.Looping? && s.cons.left > 0
    case Emit => s.cons.Emitting? && s.cons.k < s.cons.size
    case StoreTail => s.cons.Emitting? && s.cons.k == s.cons.size
    case Release => s.cons.Stored?
    case DumpEnd => s.cons.Looping? && s.cons.left <= 0
  }

  function With(s: State, i: nat, p: Producer): State
    requires i < |s.procs|
  {
    s.(procs := s.procs[i := p])
  }

  /** The dump reads from the counter how much it will print. */
  function StartDump(s: State): State { s.(cons := Looping(s.n - s.bytesLeft, |s.log|)) }

  ghost function Apply(s: State, e: Step): State
    requires Enabled(s, e) && s.n > 0
  {
    match e
    case Begin(i, text) => With(s, i, Starting(text))
    case Reserve(i) =>
      var msg := s.procs[i].msg;
      var now := s.bytesLeft - |msg|;
      With(s, i, if now < 0 then Failed(msg) else Reserved(msg)).(bytesLeft := now)
    case Undo(i) => With(s, i, Idle).(bytesLeft := s.bytesLeft + |s.procs[i].msg|)
    case Load(i) => With(s, i, Loaded(s.procs[i].msg, s.head))
    case Exchange(i) =>
      var msg, oldHead := s.procs[i].msg, s.procs[i].oldHead;
      if s.head == oldHead then
        var newHead := (oldHead + |msg|) % s.n;
        With(s, i, Copying(msg, oldHead, newHead, |s.log|, 0)).(head := newHead, log := s.log + msg)
      else With(s, i, Reserved(msg))
    case CopyByte(i) =>
      var p := s.procs[i];
      var at := WriteIndex(s.n, p.oldHead, p.newHead, p.k);
      With(s, i, p.(k := p.k + 1)).(buf := if 0 <= at < |s.buf| then s.buf[at := p.msg[p.k]] else s.buf)
    case Finish(i) => With(s, i, Idle)
    case DumpStart => StartDump(s)
    case BatchStart =>
      var size := if s.cons.left < BATCH_SIZE then s.cons.left else BATCH_SIZE;
      s.(cons := Emitting(s.cons.left, s.cons.goal, s.tail, size, 0))
    case Emit =>
      var c := s.cons;
      var at := ReadIndex(s.n, c.from, c.size, c.k);
      var text := if 0 <= at < |s.buf| && s.buf[at] != '\0' then [s.buf[at]] else [];
      s.(cons := c.(k := c.k + 1), out := s.out + text)
    case StoreTail =>
      var c := s.cons;
      s.(tail := (c.from + c.size) % s.n, sent := s.sent + c.size, cons := Stored(c.left, c.goal, c.size))
    case Release =>
      var c := s.cons;
      s.(bytesLeft := s.bytesLeft + c.size, freed := s.freed + c.size, cons := Looping(c.left - c.size, c.goal))
    case DumpEnd => s.(cons := Resting)
  }

  // ---------------------------------------------------------------------------------------------
  // Positions on the circle
  // ---------------------------------------------------------------------------------------------

  /** The cell of the byte with virtual position `p`. */
  function Cell(n: nat, p: nat): (c: nat)
    requires n > 0
    ensures c < n
  {
    p % n
  }

  lemma CellStep(n: nat, p: nat, k: nat)
    requires n > 0 && k <= n
    ensures Cell(n, p + k) == if Cell(n, p) + k < n then Cell(n, p) + k else Cell(n, p) + k - n
    ensures (Cell(n, p) + k) % n == Cell(n, p + k)
  {
    var q, r := p / n, p % n;
    assert p == n * q + r;
    if r + k < n {
      DivModUnique(p + k, n, q, r + k);
      DivModUnique(r + k, n, 0, r + k);
    } else {
      assert p + k == n * (q + 1) + (r + k - n);
      DivModUnique(p + k, n, q + 1, r + k - n);
      if r + k < 2 * n { DivModUnique(r + k, n, 1, r + k - n); }
    }
  }

  /** Positions less than one turn apart use different cells. */
  lemma CellsDiffer(n: nat, a: nat, b: nat)
    requires n > 0 && a < b < a + n
    ensures Cell(n, a) != Cell(n, b)
  {
    CellStep(n, a, b - a);
  }

  lemma WriteIndexIsCell(n: nat, start: nat, size: nat, k: nat)
    requires n > 0 && k < size < n
    ensures WriteIndex(n, Cell(n, start), Cell(n, start + size), k) == Cell(n, start + k)
  {
    CellStep(n, start, size);
    CellStep(n, start, k);
  }

  lemma ReadIndexIsCell(n: nat, start: nat, size: nat, k: nat)
    requires n > 0 && k < size <= n
    ensures ReadIndex(n, Cell(n, start), size, k) == Cell(n, start + k)
  {
    CellStep(n, start, k);
  }

  // ---------------------------------------------------------------------------------------------
  // Sums over producers
  // ---------------------------------------------------------------------------------------------

  /** Space taken from the counter by a reservation that has not claimed its range yet. */
  function Granted(p: Producer): nat { if p.Reserved? || p.Loaded? then |p.msg| else 0 }

  /** Space taken from the counter by a reservation that failed and will be given back. */
  function Refused(p: Producer): nat { if p.Failed? then |p.msg| else 0 }

  function SumGranted(ps: seq<Producer>): nat {
    if ps == [] then 0 else SumGranted(ps[..|ps| - 1]) + Granted(ps[|ps| - 1])
  }

  function SumRefused(ps: seq<Producer>): nat {
    if ps == [] then 0 else SumRefused(ps[..|ps| - 1]) + Refused(ps[|ps| - 1])
  }

  lemma {:induction false} SumsUpdate(ps: seq<Producer>, i: nat, p: Producer)
    requires i < |ps|
    ensures SumGranted(ps[i := p]) == SumGranted(ps) - Granted(ps[i]) + Granted(p)
    ensures SumRefused(ps[i := p]) == SumRefused(ps) - Refused(ps[i]) + Refused(p)
  {
    var n := |ps| - 1;
    if i == n {
      assert ps[i := p][..n] == ps[..n];
    } else {
      SumsUpdate(ps[..n], i, p);
      assert ps[i := p][..n] == ps[..n][i := p];
    }
  }

  lemma {:induction false} ZeroSumsIff(ps: seq<Producer>)
    ensures SumGranted(ps) == 0 && SumRefused(ps) == 0
            <==> forall i :: 0 <= i < |ps| ==> Granted(ps[i]) == 0 && Refused(ps[i]) == 0
  {
    if ps != [] {
      ZeroSumsIff(ps[..|ps| - 1]);
      assert forall i :: 0 <= i < |ps| - 1 ==> ps[..|ps| - 1][i] == ps[i];
    }
  }

  // ---------------------------------------------------------------------------------------------
  // The invariant
  // ---------------------------------------------------------------------------------------------

  ghost predicate Shape(s: State) {
    && s.n > 0 && |s.buf| == s.n
    && s.freed <= s.sent <= |s.log|
    && s.head == Cell(s.n, |s.log|) && s.tail == Cell(s.n, s.sent)
  }

  /** Every byte of the capacity is free, reserved, or holds claimed text. */
  ghost predicate Balanced(s: State) {
    && s.bytesLeft + SumGranted(s.procs) + SumRefused(s.procs) + (|s.log| - s.freed) == s.n
    && SumGranted(s.procs) + (|s.log| - s.freed) <= s.n
  }

  ghost predicate ConsumerOk(s: State) {
    match s.cons
    case Resting => s.sent == s.freed
    case Looping(left, goal) => s.sent == s.freed && left == goal - s.freed && s.freed <= goal <= |s.log|
    case Emitting(left, goal, from, size, k) =>
      && s.sent == s.freed && left == goal - s.freed && goal <= |s.log|
      && 1 <= size <= left && k <= size && from == s.tail
    case Stored(left, goal, size) =>
      s.sent == s.freed + size && left == goal - s.freed && s.sent <= goal <= |s.log|
  }

  /** No message that is still being copied starts below this position. */
  function Limit(s: State): nat { if s.cons.Resting? then s.freed else s.cons.goal }

  ghost predicate ProducerOk(s: State, p: Producer) {
    && (!p.Idle? ==> |p.msg| < s.n)
    && (p.Copying? ==>
          && s.n > 0 && p.oldHead == Cell(s.n, p.start) && p.newHead == Cell(s.n, p.start + |p.msg|)
          && p.k <= |p.msg| && (Limit(s) <= p.start || p.k == |p.msg|) && p.start + |p.msg| <= |s.log|
          && s.log[p.start..p.start + |p.msg|] == p.msg)
  }

  ghost predicate RangesApart(p: Producer, q: Producer) {
    p.Copying? && q.Copying? ==> p.start + |p.msg| <= q.start || q.start + |q.msg| <= p.start
  }

  ghost predicate ProducersOk(s: State) {
    && (forall i :: 0 <= i < |s.procs| ==> ProducerOk(s, s.procs[i]))
    && (forall i, j :: 0 <= i < j < |s.procs| ==> RangesApart(s.procs[i], s.procs[j]))
  }

  ghost predicate Unwritten(p: Producer, x: nat) { p.Copying? && p.start + p.k <= x < p.start + |p.msg| }

  ghost predicate Written(s: State, x: nat) { forall i :: 0 <= i < |s.procs| ==> !Unwritten(s.procs[i], x) }

  /** A byte that was claimed, copied and not released is still in its cell. */
  ghost predicate ContentOk(s: State) {
    forall x {:trigger s.log[x]} :: s.n > 0 && s.freed <= x < |s.log| && Written(s, x) && Cell(s.n, x) < |s.buf|
                                    ==> s.buf[Cell(s.n, x)] == s.log[x]
  }

  function Emitted(s: State): nat { if s.cons.Emitting? then s.sent + s.cons.k else s.sent }

  ghost predicate OutputOk(s: State) { Emitted(s) <= |s.log| && s.out == NonNul(s.log[..Emitted(s)]) }

  ghost predicate Inv(s: State) {
    Shape(s) && Balanced(s) && ConsumerOk(s) && ProducersOk(s) && ContentOk(s) && OutputOk(s)
  }

  // ---------------------------------------------------------------------------------------------
  // Every step keeps it: producers
  // ---------------------------------------------------------------------------------------------

  /** A producer that copies nothing afterwards changes only the accounts. */
  lemma QuietKeepsInv(s: State, i: nat, p: Producer, bytesLeft: int)
    requires Inv(s) && i < |s.procs|
    requires s.procs[i].Copying? ==> s.procs[i].k == |s.procs[i].msg|
    requires !p.Copying? && (!p.Idle? ==> |p.msg| < s.n)
    requires bytesLeft + Granted(p) + Refused(p) == s.bytesLeft + Granted(s.procs[i]) + Refused(s.procs[i])
    requires SumGranted(s.procs) - Granted(s.procs[i]) + Granted(p) + (|s.log| - s.freed) <= s.n
    ensures Inv(With(s, i, p).(bytesLeft := bytesLeft))
  {
    hide Cell, SumGranted, SumRefused, NonNul;
    SumsUpdate(s.procs, i, p);
    var s' := With(s, i, p).(bytesLeft := bytesLeft);
    assert ProducersOk(s') by {
      assert forall j :: 0 <= j < |s.procs| && j != i ==> s'.procs[j] == s.procs[j] && ProducerOk(s, s.procs[j]);
    }
    forall x | Written(s', x) ensures Written(s, x) {
      assert forall j :: 0 <= j < |s.procs| && j != i ==> s'.procs[j] == s.procs[j];
    }
  }

  lemma ReserveKeepsInv(s: State, i: nat)
    requires Inv(s) && Enabled(s, Reserve(i))
    ensures Inv(Apply(s, Reserve(i)))
  {
    hide Cell, SumGranted, SumRefused, NonNul, ContentOk, OutputOk, ConsumerOk;
    var msg := s.procs[i].msg;
    assert ProducerOk(s, s.procs[i]);
    var now := s.bytesLeft - |msg|;
    QuietKeepsInv(s, i, if now < 0 then Failed(msg) else Reserved(msg), now);
  }

  /** Claiming a range appends the message to the log. */
  lemma ClaimKeepsInv(s: State, i: nat)
    requires Inv(s) && Enabled(s, Exchange(i)) && s.head == s.procs[i].oldHead
    ensures Inv(Apply(s, Exchange(i)))
  {
    hide Cell, SumGranted, SumRefused, NonNul;
    var s', msg := Apply(s, Exchange(i)), s.procs[i].msg;
    assert ProducerOk(s, s.procs[i]);
    CellStep(s.n, |s.log|, |msg|);
    SumsUpdate(s.procs, i, s'.procs[i]);
    assert s'.log[..Emitted(s')] == s.log[..Emitted(s)];
    ClaimKeepsProducers(s, s', i);
    forall x | s.freed <= x < |s'.log| && Written(s', x) ensures x < |s.log| && Written(s, x) {
      assert !Unwritten(s'.procs[i], x);
      assert forall j :: 0 <= j < |s.procs| && j != i ==> s'.procs[j] == s.procs[j];
    }
  }

  lemma ClaimKeepsProducers(s: State, s': State, i: nat)
    requires Inv(s) && i < |s.procs| && s.procs[i].Loaded?
    requires |s'.procs| == |s.procs|
    requires var p := s'.procs[i];
             && s'.procs == s.procs[i := p] && p.Copying? && p.msg == s.procs[i].msg && p.start == |s.log| && p.k == 0
             && s'.n == s.n && s'.log == s.log + p.msg && s'.cons == s.cons && s'.freed == s.freed
             && p.oldHead == Cell(s.n, |s.log|) && p.newHead == Cell(s.n, |s.log| + |p.msg|)
    ensures ProducersOk(s')
  {
    hide Cell, Balanced, ContentOk, OutputOk;
    forall j | 0 <= j < |s.procs| ensures ProducerOk(s', s'.procs[j]) {
      assert ProducerOk(s, s.procs[j]);
      var p := s'.procs[j];
      if j != i && p.Copying? {
        assert s'.log[p.start..p.start + |p.msg|] == s.log[p.start..p.start + |p.msg|];
      }
    }
    forall j | 0 <= j < |s.procs| && j != i ensures RangesApart(s'.procs[j], s'.procs[i]) {
      assert ProducerOk(s, s.procs[j]);
    }
  }

  /** The byte about to be copied: its cell, and where it stands in the log. */
  lemma CopyTarget(s: State, i: nat)
    requires Inv(s) && Enabled(s, CopyByte(i))
    ensures var p := s.procs[i];
            var w := p.start + p.k;
            && s.freed <= w < |s.log| && |s.log| - s.freed <= s.n && s.log[w] == p.msg[p.k]
            && Apply(s, CopyByte(i)) == With(s, i, p.(k := p.k + 1)).(buf := s.buf[Cell(s.n, w) := s.log[w]])
  {
    hide Cell, SumGranted, SumRefused, NonNul, WriteIndex, ContentOk, OutputOk;
    var p := s.procs[i];
    assert ProducerOk(s, p);
    assert s.log[p.start + p.k] == s.log[p.start..p.start + |p.msg|][p.k];
    WriteIndexIsCell(s.n, p.start, |p.msg|, p.k);
    CellBound(s.n, p.start + p.k);
  }

  lemma CellBound(n: nat, x: nat)
    requires n > 0
    ensures Cell(n, x) < n
  {
  }

  /** Live bytes never share a cell. */
  lemma LiveCellsDiffer(n: nat, freed: nat, end: nat, w: nat, x: nat)
    requires n > 0 && end - freed <= n && freed <= w < end && freed <= x < end && x != w
    ensures Cell(n, x) != Cell(n, w)
  {
    hide Cell;
    if x < w { CellsDiffer(n, x, w); } else { CellsDiffer(n, w, x); }
  }

  lemma CopyKeepsContent(s: State, s': State, i: nat, w: nat)
    requires s.n > 0 && |s.buf| == s.n && ContentOk(s) && i < |s.procs| && s.procs[i].Copying?
    requires w == s.procs[i].start + s.procs[i].k && s.freed <= w < |s.log| && |s.log| - s.freed <= s.n
    requires Cell(s.n, w) < s.n
    requires s' == With(s, i, s.procs[i].(k := s.procs[i].k + 1)).(buf := s.buf[Cell(s.n, w) := s.log[w]])
    ensures ContentOk(s')
  {
    hide Cell, Written;
    forall x | s.freed <= x < |s.log| && Written(s', x) && Cell(s.n, x) < |s.buf|
      ensures s'.buf[Cell(s.n, x)] == s.log[x]
    {
      if x != w {
        LiveCellsDiffer(s.n, s.freed, |s.log|, w, x);
        CopyWrites(s, s', i, x);
      }
    }
  }

  /** A byte is copied to a cell that no other live byte uses. */
  lemma CopyKeepsInv(s: State, i: nat)
    requires Inv(s) && Enabled(s, CopyByte(i))
    ensures Inv(Apply(s, CopyByte(i)))
    ensures var p := s.procs[i];
            Apply(s, CopyByte(i)).buf == s.buf[Cell(s.n, p.start + p.k) := s.log[p.start + p.k]]
    ensures forall x :: s.freed <= x < |s.log| && x != s.procs[i].start + s.procs[i].k ==>
                          Cell(s.n, x) != Cell(s.n, s.procs[i].start + s.procs[i].k)
  {
    hide Cell, SumGranted, SumRefused, NonNul, WriteIndex, ContentOk, ProducersOk;
    var s', p := Apply(s, CopyByte(i)), s.procs[i];
    var w := p.start + p.k;
    CopyTarget(s, i);
    CellBound(s.n, w);
    SumsUpdate(s.procs, i, s'.procs[i]);
    forall x | s.freed <= x < |s.log| && x != w ensures Cell(s.n, x) != Cell(s.n, w) {
      LiveCellsDiffer(s.n, s.freed, |s.log|, w, x);
    }
    CopyKeepsContent(s, s', i, w);
    CopyKeepsProducers(s, s', i);
  }

  lemma CopyWrites(s: State, s': State, i: nat, x: nat)
    requires i < |s.procs| && s.procs[i].Copying? && s'.procs == s.procs[i := s.procs[i].(k := s.procs[i].k + 1)]
    requires Written(s', x) && x != s.procs[i].start + s.procs[i].k
    ensures Written(s, x)
  {
    forall j | 0 <= j < |s.procs| ensures !Unwritten(s.procs[j], x) {
      assert !Unwritten(s'.procs[j], x);
    }
  }

  lemma CopyKeepsProducers(s: State, s': State, i: nat)
    requires ProducersOk(s) && i < |s.procs| && s.procs[i].Copying? && s.procs[i].k < |s.procs[i].msg|
    requires s'.procs == s.procs[i := s.procs[i].(k := s.procs[i].k + 1)]
    requires s'.n == s.n && s'.log == s.log && s'.cons == s.cons && s'.freed == s.freed
    ensures ProducersOk(s')
  {
    hide Cell;
    forall j | 0 <= j < |s.procs| ensures ProducerOk(s', s'.procs[j]) {
      assert ProducerOk(s, s.procs[j]);
    }
    forall j, k | 0 <= j < k < |s.procs| ensures RangesApart(s'.procs[j], s'.procs[k]) {
      assert RangesApart(s.procs[j], s.procs[k]);
    }
  }

  // ---------------------------------------------------------------------------------------------
  // Every step keeps it: the consumer
  // ---------------------------------------------------------------------------------------------

  /** With nothing in flight the counter tells exactly how much is stored. */
  lemma DumpStartKeepsInv(s: State)
    requires Inv(s) && Enabled(s, DumpStart)
    ensures Inv(Apply(s, DumpStart)) && Apply(s, DumpStart).cons.left == |s.log| - s.freed
  {
    hide Cell, SumGranted, SumRefused, NonNul;
    ZeroSumsIff(s.procs);
    var s' := Apply(s, DumpStart);
    forall j | 0 <= j < |s.procs|
      ensures ProducerOk(s', s'.procs[j]) && Granted(s.procs[j]) == 0 == Refused(s.procs[j])
    {
      assert ProducerOk(s, s.procs[j]) && IsCalm(s.procs[j]);
    }
    assert forall x :: Written(s', x) ==> Written(s, x);
  }

  /** What the consumer changes is none of the producers' business, if the limit stays below them. */
  lemma ConsumerMove(s: State, s': State)
    requires Inv(s) && s'.procs == s.procs && s'.n == s.n && s'.log == s.log && s'.buf == s.buf && s'.head == s.head
    requires Limit(s') <= Limit(s) && s.freed <= s'.freed
    ensures ProducersOk(s') && ContentOk(s')
  {
    hide Cell, Balanced, OutputOk, ConsumerOk;
    forall j | 0 <= j < |s.procs| ensures ProducerOk(s', s'.procs[j]) {
      assert ProducerOk(s, s.procs[j]);
    }
    assert forall x :: Written(s', x) ==> Written(s, x);
  }

  /** The byte printed is the next byte of the log. */
  lemma EmitReadsLog(s: State)
    requires Inv(s) && Enabled(s, Emit)
    ensures var c, x := s.cons, Emitted(s);
            && x < |s.log| && ReadIndex(s.n, c.from, c.size, c.k) == Cell(s.n, x)
            && s.buf[Cell(s.n, x)] == s.log[x]
  {
    hide Cell, SumGranted, SumRefused, NonNul, ReadIndex;
    var x := Emitted(s);
    ReadIndexIsCell(s.n, s.sent, s.cons.size, s.cons.k);
    assert Written(s, x) by {
      forall j | 0 <= j < |s.procs| ensures !Unwritten(s.procs[j], x) {
        assert ProducerOk(s, s.procs[j]);
      }
    }
    assert s.buf[Cell(s.n, x)] == s.log[x];
  }

  lemma EmitKeepsInv(s: State)
    requires Inv(s) && Enabled(s, Emit)
    ensures Inv(Apply(s, Emit))
  {
    hide Cell, Balanced, NonNul, ReadIndex, ProducersOk, ContentOk;
    var s', x := Apply(s, Emit), Emitted(s);
    EmitReadsLog(s);
    ConsumerMove(s, s');
    NonNulNext(s.log, x);
    BalancedFrame(s, s');
  }

  lemma NonNulNext(t: string, x: nat)
    requires x < |t|
    ensures NonNul(t[..x + 1]) == NonNul(t[..x]) + if t[x] != '\0' then [t[x]] else []
  {
    assert t[..x + 1][..x] == t[..x];
  }

  lemma BalancedFrame(s: State, s': State)
    requires Balanced(s) && s'.procs == s.procs && s'.n == s.n && s'.log == s.log
    requires s'.bytesLeft - s'.freed == s.bytesLeft - s.freed && s.freed <= s'.freed
    ensures Balanced(s')
  {
  }

  lemma ConsumerKeepsInv(s: State, e: Step)
    requires Inv(s) && Enabled(s, e) && (e.BatchStart? || e.StoreTail? || e.Release? || e.DumpEnd?)
    ensures Inv(Apply(s, e))
  {
    hide Cell, Balanced, NonNul, ProducersOk, ContentOk, SumGranted, SumRefused;
    var s' := Apply(s, e);
    ConsumerMove(s, s');
    BalancedFrame(s, s');
    StoredFits(s);
    if e.StoreTail? { CellStep(s.n, s.sent, s.cons.size); }
  }

  /** No more than the capacity is ever live. */
  lemma StoredFits(s: State)
    requires Balanced(s)
    ensures |s.log| - s.freed <= s.n
  {
  }

  lemma ApplyKeepsInv(s: State, e: Step)
    requires Inv(s) && Enabled(s, e)
    ensures Inv(Apply(s, e))
  {
    hide Cell, SumGranted, SumRefused, NonNul, ContentOk, OutputOk, ConsumerOk, WriteIndex, ReadIndex;
    match e
    case Begin(i, text) => QuietKeepsInv(s, i, Starting(text), s.bytesLeft);
    case Reserve(i) => ReserveKeepsInv(s, i);
    case Undo(i) => QuietKeepsInv(s, i, Idle, s.bytesLeft + |s.procs[i].msg|);
    case Load(i) => assert ProducerOk(s, s.procs[i]); QuietKeepsInv(s, i, Loaded(s.procs[i].msg, s.head), s.bytesLeft);
    case Exchange(i) =>
      if s.head == s.procs[i].oldHead {
        ClaimKeepsInv(s, i);
      } else {
        assert ProducerOk(s, s.procs[i]);
        QuietKeepsInv(s, i, Reserved(s.procs[i].msg), s.bytesLeft);
      }
    case CopyByte(i) => CopyKeepsInv(s, i);
    case Finish(i) => QuietKeepsInv(s, i, Idle, s.bytesLeft);
    case DumpStart => DumpStartKeepsInv(s);
    case Emit => EmitKeepsInv(s);
    case BatchStart => ConsumerKeepsInv(s, e);
    case StoreTail => ConsumerKeepsInv(s, e);
    case Release => ConsumerKeepsInv(s, e);
    case DumpEnd => ConsumerKeepsInv(s, e);
  }

  // ---------------------------------------------------------------------------------------------
  // Every run
  // ---------------------------------------------------------------------------------------------

  ghost predicate IsRun(s: State, es: seq<Step>)
    decreases |es|
  {
    es == [] || (s.n > 0 && Enabled(s, es[0]) && IsRun(Apply(s, es[0]), es[1..]))
  }

  ghost function Run(s: State, es: seq<Step>): State
    requires IsRun(s, es)
    decreases |es|
  {
    if es == [] then s else Run(Apply(s, es[0]), es[1..])
  }

  function Initial(n: nat, producers: nat): State {
    State(n, n, 0, 0, seq(n, _ => '\0'), seq(producers, _ => Idle), Resting, "", 0, 0, "")
  }

  lemma InitialInv(n: nat, producers: nat)
    requires n > 0
    ensures Inv(Initial(n, producers))
  {
    var s := Initial(n, producers);
    ZeroSumsIff(s.procs);
    DivModUnique(0, n, 0, 0);
  }

  lemma {:induction false} RunKeepsInv(s: State, es: seq<Step>)
    requires Inv(s) && IsRun(s, es)
    ensures Inv(Run(s, es))
    decreases |es|
  {
    hide Inv, Apply, Enabled;
    if es != [] {
      ApplyKeepsInv(s, es[0]);
      RunKeepsInv(Apply(s, es[0]), es[1..]);
    }
  }

  /** In any schedule: the accounts balance and all output is the beginning of the log, without NULs. */
  lemma EveryRunAgrees(n: nat, producers: nat, es: seq<Step>)
    requires n > 0 && IsRun(Initial(n, producers), es)
    ensures var s := Run(Initial(n, producers), es);
            && s.bytesLeft + SumGranted(s.procs) + SumRefused(s.procs) + (|s.log| - s.freed) == n
            && s.freed <= Emitted(s) <= |s.log| <= s.freed + n
            && s.out == NonNul(s.log[..Emitted(s)])
  {
    hide IsRun, Run, NonNul, SumGranted, SumRefused, ContentOk, ProducersOk;
    InitialInv(n, producers);
    RunKeepsInv(Initial(n, producers), es);
    RunKeepsSize(Initial(n, producers), es);
  }

  lemma {:induction false} RunKeepsSize(s: State, es: seq<Step>)
    requires IsRun(s, es)
    ensures Run(s, es).n == s.n
    decreases |es|
  {
    if es != [] { RunKeepsSize(Apply(s, es[0]), es[1..]); }
  }

  /** Bytes of messages being copied never share a cell, unless one of them is printed and released already. */
  lemma RangesUseDifferentCells(s: State, i: nat, j: nat, a: nat, b: nat)
    requires Inv(s) && i < |s.procs| && j < |s.procs| && i != j && s.procs[i].Copying? && s.procs[j].Copying?
    requires a < |s.procs[i].msg| && b < |s.procs[j].msg|
    requires s.freed <= s.procs[i].start + a && s.freed <= s.procs[j].start + b
    ensures Cell(s.n, s.procs[i].start + a) != Cell(s.n, s.procs[j].start + b)
  {
    hide Cell, ContentOk, OutputOk, SumGranted, SumRefused;
    assert ProducerOk(s, s.procs[i]) && ProducerOk(s, s.procs[j]);
    assert RangesApart(s.procs[i], s.procs[j]) || RangesApart(s.procs[j], s.procs[i]);
    var x, y := s.procs[i].start + a, s.procs[j].start + b;
    if x < y { CellsDiffer(s.n, x, y); } else { CellsDiffer(s.n, y, x); }
  }

  /** While a dump runs, whatever it has still to print is intact. */
  lemma UnprintedIsIntact(s: State, x: nat)
    requires Inv(s) && !s.cons.Resting? && s.freed <= x < s.cons.goal
    ensures x < |s.log| && s.buf[Cell(s.n, x)] == s.log[x]
  {
    hide Cell, Balanced, OutputOk;
    assert Written(s, x) by {
      forall j | 0 <= j < |s.procs| ensures !Unwritten(s.procs[j], x) { assert ProducerOk(s, s.procs[j]); }
    }
    assert s.buf[Cell(s.n, x)] == s.log[x];
  }

  /** The amount a dump computes from the counter is what is stored exactly when no reservation is open. */
  lemma DumpAmountIff(s: State)
    requires Inv(s)
    ensures s.n - s.bytesLeft == |s.log| - s.freed <==> SumGranted(s.procs) == 0 && SumRefused(s.procs) == 0
  {
  }

  /**
   A resting consumer can start a dump that is right, with the amount that is stored and every stored
   byte in place, exactly when no commit holds a reservation without a range or has bytes left to copy.
   */
  lemma DumpStartsRightIff(s: State)
    requires Inv(s) && s.cons.Resting?
    ensures (s.n - s.bytesLeft == |s.log| - s.freed && forall x: nat :: s.freed <= x < |s.log| ==> Written(s, x))
            <==> AllCalm(s.procs)
  {
    hide Cell, NonNul, ContentOk, OutputOk, SumGranted, SumRefused;
    ZeroSumsIff(s.procs);
    DumpAmountIff(s);
    forall i | 0 <= i < |s.procs|
      ensures IsCalm(s.procs[i])
              <==> Granted(s.procs[i]) == 0 && Refused(s.procs[i]) == 0 && !LeavesUncopied(s, s.procs[i])
    {
      var p := s.procs[i];
      assert ProducerOk(s, p);
      if p.Copying? && p.k < |p.msg| { assert Unwritten(p, p.start + p.k); }
    }
    if i :| 0 <= i < |s.procs| && LeavesUncopied(s, s.procs[i]) {
      var x: nat :| s.freed <= x < |s.log| && Unwritten(s.procs[i], x);
      assert !Written(s, x);
    }
    if x: nat :| s.freed <= x < |s.log| && !Written(s, x) {
      var i :| 0 <= i < |s.procs| && Unwritten(s.procs[i], x);
      assert LeavesUncopied(s, s.procs[i]);
    }
  }

  /** A stored byte that its commit has not copied yet. */
  ghost predicate LeavesUncopied(s: State, p: Producer) {
    exists x: nat :: s.freed <= x < |s.log| && Unwritten(p, x)
  }

  /** The output after the first byte of a dump. */
  ghost function Printed(s: State): string {
    if s.n > 0 && Enabled(s, BatchStart) && Enabled(Apply(s, BatchStart), Emit)
    then Apply(Apply(s, BatchStart), Emit).out else s.out
  }

  /** Whatever the first stored cell holds is what a dump prints first, copied or not. */
  lemma FirstPrinted(s: State)
    requires Inv(s) && s.cons.Resting? && s.freed < |s.log|
    ensures Enabled(StartDump(s), BatchStart) && Enabled(Apply(StartDump(s), BatchStart), Emit)
    ensures var c := s.buf[Cell(s.n, s.freed)]; Printed(StartDump(s)) == s.out + (if c != '\0' then [c] else [])
  {
    hide Cell, NonNul, ContentOk, OutputOk, SumGranted, SumRefused, ProducersOk;
    var s2 := Apply(StartDump(s), BatchStart);
    assert s2.cons.k == 0 && s2.cons.from == Cell(s.n, s.freed);
  }

  const RASH_STEPS: seq<Step> := [Begin(0, "x"), Reserve(0), Load(0), Exchange(0)]

  /** The states after reserving and claiming room for one byte, step by step. */
  const RASH: (State, State, State, State) :=
    var s := Initial(2, 1).(procs := [Starting("x")]);
    (s, s.(procs := [Reserved("x")], bytesLeft := 1), s.(procs := [Loaded("x", 0)], bytesLeft := 1),
     s.(procs := [Copying("x", 0, 1, 0, 0)], bytesLeft := 1, head := 1, log := "x"))

  /** A dump between the claim and the copy of a message prints the cell as it was, here nothing. */
  lemma RashDump()
    ensures IsRun(Initial(2, 1), RASH_STEPS) && Run(Initial(2, 1), RASH_STEPS) == RASH.3
    ensures Inv(RASH.3) && RASH.3.cons.Resting? && RASH.3.log == "x" && RASH.3.n - RASH.3.bytesLeft == 1
    ensures !AllCalm(RASH.3.procs)
    ensures Printed(StartDump(RASH.3)) == ""
  {
    hide Apply, Enabled, IsRun, Run, Inv, SumGranted, SumRefused;
    var es := RASH_STEPS;
    RashSteps();
    RunOfFour(Initial(2, 1), es[0], RASH.0, es[1], RASH.1, es[2], RASH.2, es[3], RASH.3);
    InitialInv(2, 1);
    RunKeepsInv(Initial(2, 1), es);
    assert !IsCalm(RASH.3.procs[0]);
    FirstPrinted(RASH.3);
    CellOfZero();
  }

  lemma RashSteps()
    ensures Enabled(Initial(2, 1), Begin(0, "x")) && Apply(Initial(2, 1), Begin(0, "x")) == RASH.0
    ensures Enabled(RASH.0, Reserve(0)) && Apply(RASH.0, Reserve(0)) == RASH.1
    ensures Enabled(RASH.1, Load(0)) && Apply(RASH.1, Load(0)) == RASH.2
    ensures Enabled(RASH.2, Exchange(0)) && Apply(RASH.2, Exchange(0)) == RASH.3
  {
    assert Initial(2, 1).procs == [Idle];
  }

  lemma CellOfZero()
    ensures Cell(2, 0) == 0
  {
  }

  lemma RunOfFour(s0: State, e0: Step, s1: State, e1: Step, s2: State, e2: Step, s3: State, e3: Step, s4: State)
    requires s0.n > 0 && Enabled(s0, e0) && Apply(s0, e0) == s1 && s1.n > 0 && Enabled(s1, e1) && Apply(s1, e1) == s2
    requires s2.n > 0 && Enabled(s2, e2) && Apply(s2, e2) == s3 && s3.n > 0 && Enabled(s3, e3) && Apply(s3, e3) == s4
    ensures IsRun(s0, [e0, e1, e2, e3]) && Run(s0, [e0, e1, e2, e3]) == s4
  {
    hide Apply, Enabled;
    assert [e0, e1, e2, e3][1..] == [e1, e2, e3] && [e1, e2, e3][1..] == [e2, e3] && [e2, e3][1..] == [e3];
    assert [e3][1..] == [];
    assert IsRun(s4, []) && IsRun(s3, [e3]) && IsRun(s2, [e2, e3]) && IsRun(s1, [e1, e2, e3]);
    assert Run(s4, []) == s4 && Run(s3, [e3]) == s4 && Run(s2, [e2, e3]) == s4 && Run(s1, [e1, e2, e3]) == s4;
  }

  // ---------------------------------------------------------------------------------------------
  // A whole dump
  // ---------------------------------------------------------------------------------------------

  /** Until it ends, a dump keeps its goal while the log may grow. */
  lemma {:induction false} DumpGoesOn(s: State, es: seq<Step>)
    requires Inv(s) && !s.cons.Resting? && IsRun(s, es) && DumpEnd !in es
    ensures var t := Run(s, es); Inv(t) && !t.cons.Resting? && t.cons.goal == s.cons.goal && s.log <= t.log
    decreases |es|
  {
    hide Inv;
    if es != [] {
      ApplyKeepsInv(s, es[0]);
      DumpGoesOn(Apply(s, es[0]), es[1..]);
    }
  }

  lemma {:induction false} NonNulConcat(a: string, b: string)
    ensures NonNul(a + b) == NonNul(a) + NonNul(b)
    decreases |b|
  {
    if b == [] {
      assert a + b == a;
    } else {
      NonNulConcat(a, b[..|b| - 1]);
      assert (a + b)[..|a + b| - 1] == a + b[..|b| - 1];
    }
  }

  /**
   A dump that starts right prints exactly the bytes stored at that moment, in the order their ranges
   were claimed and without NULs, whatever is committed while it runs.
   */
  lemma DumpPrintsStored(s: State, es: seq<Step>)
    requires Inv(s) && Enabled(s, DumpStart) && IsRun(Apply(s, DumpStart), es) && DumpEnd !in es
    requires Enabled(Run(Apply(s, DumpStart), es), DumpEnd)
    ensures var t := Run(Apply(s, DumpStart), es);
            t.out == s.out + NonNul(s.log[s.freed..]) && t.freed == t.sent == |s.log| && s.log <= t.log
  {
    hide NonNul, IsRun, Run, ContentOk, ProducersOk, Balanced;
    DumpStartKeepsInv(s);
    var s1 := Apply(s, DumpStart);
    DumpGoesOn(s1, es);
    var t := Run(s1, es);
    assert t.log[..|s.log|] == s.log == s.log[..s.freed] + s.log[s.freed..];
    NonNulConcat(s.log[..s.freed], s.log[s.freed..]);
  }

  /** An upper bound on the consumer's remaining steps. */
  function Work(c: Consumer): int {
    match c
    case Resting => 0
    case Looping(left, _) => 4 * left + 1
    case Emitting(left, _, _, size, k) => (size - k) + 2 + 4 * (left - size) + 1
    case Stored(left, _, size) => 1 + 4 * (left - size) + 1
  }

  predicate IsConsumerStep(e: Step) { e.BatchStart? || e.Emit? || e.StoreTail? || e.Release? || e.DumpEnd? }

  function ConsumerSteps(es: seq<Step>): nat {
    if es == [] then 0 else (if IsConsumerStep(es[0]) then 1 else 0) + ConsumerSteps(es[1..])
  }

  /** A running dump can always go on, and its steps are bounded whatever the producers do. */
  lemma DumpNeverStuck(s: State)
    requires Inv(s) && !s.cons.Resting?
    ensures exists e :: IsConsumerStep(e) && Enabled(s, e)
    ensures Work(s.cons) > 0
  {
    hide Balanced, ProducersOk, ContentOk, OutputOk;
    var e := if s.cons.Looping? then (if s.cons.left > 0 then BatchStart else DumpEnd)
             else if s.cons.Emitting? then (if s.cons.k < s.cons.size then Emit else StoreTail) else Release;
    assert IsConsumerStep(e) && Enabled(s, e);
  }

  /** A consumer step uses up some of the work, any other step leaves it alone. */
  lemma StepWorks(s: State, e: Step)
    requires Inv(s) && Enabled(s, e) && !s.cons.Resting? && e != DumpEnd
    ensures !Apply(s, e).cons.Resting?
    ensures Work(Apply(s, e).cons) + (if IsConsumerStep(e) then 1 else 0) <= Work(s.cons)
  {
    hide Balanced, ProducersOk, ContentOk, OutputOk, WriteIndex, Cell, NonNul;
  }

  lemma {:induction false} DumpTerminates(s: State, es: seq<Step>)
    requires Inv(s) && !s.cons.Resting? && IsRun(s, es) && DumpEnd !in es
    ensures ConsumerSteps(es) + Work(Run(s, es).cons) <= Work(s.cons)
    ensures ConsumerSteps(es) < Work(s.cons)
    decreases |es|
  {
    hide Inv, Apply, Enabled, Work;
    if es == [] {
      DumpNeverStuck(s);
    } else {
      ApplyKeepsInv(s, es[0]);
      StepWorks(s, es[0]);
      DumpTerminates(Apply(s, es[0]), es[1..]);
    }
  }
}
