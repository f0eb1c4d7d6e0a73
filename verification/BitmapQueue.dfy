/**
 The bitmap priority queue behind the priority policies (`data_structures::BitmapPriorityQueue` over
 `BitArray`): one FIFO per priority and one bit per FIFO.

 A lookup consults the bits only.  No operation ever sets a bit, so the bits never come to mirror
 the FIFOs; this module proves what follows for every run.
 */
module BitmapQueue {
  import opened Basics

  datatype Queue = Queue(bits: seq<bool>, fifos: seq<seq<Tid>>)

  ghost predicate Shape(q: Queue) { |q.bits| == |q.fifos| }

  function Empty(size: nat): Queue { Queue(seq(size, _ => false), seq(size, _ => [])) }

  // ---------------------------------------------------------------------------------------------
  // The bit searches
  // ---------------------------------------------------------------------------------------------

  function FindFirst(bits: seq<bool>): (r: Option<nat>)
    ensures r.Some? ==> r.value < |bits| && bits[r.value] && forall i :: 0 <= i < r.value ==> !bits[i]
    ensures r.None? <==> forall i :: 0 <= i < |bits| ==> !bits[i]
  {
    if bits == [] then None
    else if bits[0] then Some(0)
    else match FindFirst(bits[1..])
      case None => assert forall i :: 1 <= i < |bits| ==> bits[i] == bits[1..][i - 1]; None
      case Some(i) => assert forall j :: 1 <= j <= i ==> bits[j] == bits[1..][j - 1]; Some(i + 1)
  }

  function LastTrue(bits: seq<bool>): (r: Option<nat>)
    ensures r.Some? ==> r.value < |bits| && bits[r.value] && forall i :: r.value < i < |bits| ==> !bits[i]
    ensures r.None? ==> forall i :: 0 <= i < |bits| ==> !bits[i]
  {
    if bits == [] then None
    else if bits[|bits| - 1] then Some(|bits| - 1)
    else LastTrue(bits[..|bits| - 1])
  }

  /** The search from the back either answers or reads on below the first byte. */
  datatype Search = Found(index: nat) | RunsOff

  /**
   `FindLast`: finds the last byte with a set bit, but adds the number of zeros above that bit to the
   start of the byte instead of the position of the bit.  Without a set bit its signed counter passes
   zero and the loop condition still holds.
   */
  function FindLast(bits: seq<bool>): Search {
    match LastTrue(bits)
    case None => RunsOff
    case Some(h) => Found(h / 8 * 8 + (7 - h % 8))
  }

  /** `FindLast` never finds the last set bit, and stops exactly when there is one. */
  lemma FindLastNeverRight(bits: seq<bool>)
    ensures FindLast(bits).Found? <==> exists i :: 0 <= i < |bits| && bits[i]
    ensures FindLast(bits).Found? ==> LastTrue(bits).Some? && FindLast(bits).index != LastTrue(bits).value
  {
    if LastTrue(bits).Some? {
      var h := LastTrue(bits).value;
      assert h == h / 8 * 8 + h % 8 && bits[h];
    }
  }

  /** What it finds: the mirror image of the last set bit inside its byte. */
  lemma FindLastMirrors(bits: seq<bool>, byte: nat, bit: nat)
    requires bit < 8 && 8 * byte + bit < |bits| && bits[8 * byte + bit]
    requires forall i :: 8 * byte + bit < i < |bits| ==> !bits[i]
    ensures FindLast(bits) == Found(8 * byte + 7 - bit)
  {
    assert LastTrue(bits) == Some(8 * byte + bit);
    assert (8 * byte + bit) / 8 == byte && (8 * byte + bit) % 8 == bit;
  }

  // ---------------------------------------------------------------------------------------------
  // The operations
  // ---------------------------------------------------------------------------------------------

  function Insert(q: Queue, t: Tid, p: nat): Queue
    requires p < |q.fifos|
  {
    q.(fifos := q.fifos[p := q.fifos[p] + [t]])
  }

  function Remove(q: Queue, t: Tid, p: nat): Queue
    requires p < |q.fifos|
  {
    q.(fifos := q.fifos[p := Drop(q.fifos[p], t)])
  }

  /** A removal takes out the first place of the item and closes the gap; no other list changes. */
  lemma RemoveTakesOut(q: Queue, t: Tid, p: nat, k: nat)
    requires p < |q.fifos| && k < |q.fifos[p]| && q.fifos[p][k] == t
    requires forall i :: 0 <= i < k ==> q.fifos[p][i] != t
    ensures var q' := Remove(q, t, p);
            && q'.bits == q.bits && |q'.fifos| == |q.fifos| && |q'.fifos[p]| == |q.fifos[p]| - 1
            && (forall i :: 0 <= i < k ==> q'.fifos[p][i] == q.fifos[p][i])
            && (forall i :: k <= i < |q'.fifos[p]| ==> q'.fifos[p][i] == q.fifos[p][i + 1])
            && (forall r :: 0 <= r < |q.fifos| && r != p ==> q'.fifos[r] == q.fifos[r])
  {
    DropAt(q.fifos[p], t, k);
  }

  /** Pops the FIFO with the given index and clears its bit when that empties it. */
  function PopAt(q: Queue, idx: nat): (Queue, Option<Tid>)
    requires idx < |q.fifos| && Shape(q)
  {
    var f := q.fifos[idx];
    var rest := if f == [] then [] else f[1..];
    (Queue(if rest == [] then q.bits[idx := false] else q.bits, q.fifos[idx := rest]),
     if f == [] then None else Some(f[0]))
  }

  function DeleteMin(q: Queue): (Queue, Option<Tid>)
    requires Shape(q)
  {
    match FindFirst(q.bits)
    case None => (q, None)
    case Some(idx) => PopAt(q, idx)
  }

  predicate IsEmpty(q: Queue) { FindFirst(q.bits).None? }

  // ---------------------------------------------------------------------------------------------
  // What a priority queue promises
  // ---------------------------------------------------------------------------------------------

  ghost predicate HoldsNothing(q: Queue) { forall i :: 0 <= i < |q.fifos| ==> q.fifos[i] == [] }

  /** The oldest item of the lowest used priority comes out, and nothing else changes. */
  ghost predicate IsDeleteMin(q: Queue, fifos': seq<seq<Tid>>, r: Option<Tid>) {
    match r
    case None => HoldsNothing(q) && fifos' == q.fifos
    case Some(t) =>
      exists p :: 0 <= p < |q.fifos| && q.fifos[p] != [] && t == q.fifos[p][0]
                  && fifos' == q.fifos[p := q.fifos[p][1..]]
                  && forall i :: 0 <= i < p ==> q.fifos[i] == []
  }

  ghost predicate Mirrors(q: Queue) {
    Shape(q) && forall i :: 0 <= i < |q.fifos| ==> (q.bits[i] <==> q.fifos[i] != [])
  }

  /** With bits that mirror the FIFOs the lookup is right, and the bits still mirror afterwards. */
  lemma MirroredDeleteMin(q: Queue)
    requires Mirrors(q)
    ensures IsDeleteMin(q, DeleteMin(q).0.fifos, DeleteMin(q).1) && Mirrors(DeleteMin(q).0)
    ensures IsEmpty(q) <==> HoldsNothing(q)
  {
    var first := FindFirst(q.bits);
    if first.Some? {
      assert q.fifos[first.value] != [];
    }
  }

  /** An insertion destroys that relation exactly when it is the first of its priority. */
  lemma InsertMirrorsIff(q: Queue, t: Tid, p: nat)
    requires Mirrors(q) && p < |q.fifos|
    ensures Mirrors(Insert(q, t, p)) <==> q.fifos[p] != []
  {
    var q' := Insert(q, t, p);
    assert q'.fifos[p] != [];
  }

  // ---------------------------------------------------------------------------------------------
  // Every run of the queue as it is built
  // ---------------------------------------------------------------------------------------------

  datatype Op = Put(t: Tid, p: nat) | Take(t: Tid, p: nat) | TakeMin

  ghost predicate Enabled(q: Queue, op: Op) {
    match op
    case Put(_, p) => p < |q.fifos|
    case Take(t, p) => p < |q.fifos| && t in q.fifos[p]
    case TakeMin => true
  }

  function Apply(q: Queue, op: Op): Queue
    requires Shape(q) && Enabled(q, op)
  {
    match op
    case Put(t, p) => Insert(q, t, p)
    case Take(t, p) => Remove(q, t, p)
    case TakeMin => DeleteMin(q).0
  }

  ghost predicate IsRun(q: Queue, ops: seq<Op>)
    requires Shape(q)
    decreases |ops|
  {
    ops == [] || (Enabled(q, ops[0]) && IsRun(Apply(q, ops[0]), ops[1..]))
  }

  ghost function Run(q: Queue, ops: seq<Op>): (r: Queue)
    requires Shape(q) && IsRun(q, ops)
    ensures Shape(r)
    decreases |ops|
  {
    if ops == [] then q else Run(Apply(q, ops[0]), ops[1..])
  }

  ghost predicate AllFalse(bits: seq<bool>) { forall i :: 0 <= i < |bits| ==> !bits[i] }

  lemma {:induction false} RunSetsNoBit(q: Queue, ops: seq<Op>)
    requires Shape(q) && AllFalse(q.bits) && IsRun(q, ops)
    ensures AllFalse(Run(q, ops).bits)
    decreases |ops|
  {
    if ops != [] {
      assert AllFalse(Apply(q, ops[0]).bits);
      RunSetsNoBit(Apply(q, ops[0]), ops[1..]);
    }
  }

  /**
   After any run from construction nothing comes out, so taking the minimum is right exactly when no
   item is queued.
   */
  lemma DeleteMinRightIffNothingQueued(size: nat, ops: seq<Op>)
    requires IsRun(Empty(size), ops)
    ensures var q := Run(Empty(size), ops);
            && IsEmpty(q) && DeleteMin(q) == (q, None)
            && (IsDeleteMin(q, DeleteMin(q).0.fifos, DeleteMin(q).1) <==> HoldsNothing(q))
  {
    RunSetsNoBit(Empty(size), ops);
  }

  /** One insertion into a fresh queue is enough to see it. */
  lemma InsertedItemIsLost()
    ensures var q := Insert(Empty(64), 7, 3);
            !HoldsNothing(q) && IsEmpty(q) && DeleteMin(q).1 == None
            && !IsDeleteMin(q, DeleteMin(q).0.fifos, DeleteMin(q).1)
  {
    assert Insert(Empty(64), 7, 3).fifos[3] == [7];
  }
}
