/**
 The trace buffer object, used by one execution at a time: committing appends a message or drops it
 whole, dumping prints what is stored and leaves the buffer empty.
 */
module TraceBuffers {
  import Bits
  import opened Trace

  /** The cell `k` places after cell `at`, less than one turn away. */
  function Ahead(n: nat, at: nat, k: nat): nat
    requires at < n && k <= n
  {
    if at + k < n then at + k else at + k - n
  }

  lemma AheadIsRemainder(n: nat, at: nat, k: nat)
    requires at < n && k <= n
    ensures (at + k) % n == Ahead(n, at, k)
  {
    CellStep(n, at, k);
    Bits.DivModUnique(at, n, 0, at);
  }

  /** The cells from `tail` on hold the text. */
  ghost predicate Holds(buf: string, tail: nat, text: string) {
    tail < |buf| && |text| <= |buf| && forall k :: 0 <= k < |text| ==> buf[Ahead(|buf|, tail, k)] == text[k]
  }

  /** The buffer after `msg` has been written from cell `at` on, round the end. */
  function Spliced(buf: string, at: nat, msg: string): (r: string)
    requires at < |buf| && |msg| <= |buf|
    ensures |r| == |buf|
    ensures forall c :: 0 <= c < |buf| ==>
                          r[c] == var d := if c >= at then c - at else c + |buf| - at;
                            if d < |msg| then msg[d] else buf[c]
  {
    seq(|buf|, c requires 0 <= c < |buf| =>
          var d := if c >= at then c - at else c + |buf| - at; if d < |msg| then msg[d] else buf[c])
  }

  lemma SplicedHolds(buf: string, tail: nat, text: string, msg: string)
    requires Holds(buf, tail, text) && |text| + |msg| <= |buf|
    ensures Holds(Spliced(buf, Ahead(|buf|, tail, |text|), msg), tail, text + msg)
  {
    hide Spliced;
    var n := |buf|;
    var buf' := Spliced(buf, Ahead(n, tail, |text|), msg);
    forall k | 0 <= k < |text + msg| ensures buf'[Ahead(n, tail, k)] == (text + msg)[k] {
      if k < |text| { assert buf[Ahead(n, tail, k)] == text[k]; }
    }
  }

  /** The stretch of text in front of the others, read in one or two pieces. */
  lemma FrontOfText(buf: string, tail: nat, text: string, size: nat)
    requires Holds(buf, tail, text) && size <= |text|
    ensures tail + size > |buf| ==> buf[tail..] + buf[..tail + size - |buf|] == text[..size]
    ensures tail + size <= |buf| ==> buf[tail..tail + size] == text[..size]
    ensures Holds(buf, Ahead(|buf|, tail, size), text[size..])
  {
    var n := |buf|;
    assert forall k :: 0 <= k < |text| ==> buf[Ahead(n, tail, k)] == text[k];
    forall k | 0 <= k < |text[size..]| ensures buf[Ahead(n, Ahead(n, tail, size), k)] == text[size..][k] {
      assert buf[Ahead(n, tail, size + k)] == text[size + k];
    }
  }

  class TraceBuffer {
    const buffer: array<char>
    var bytesLeft: int
    var head: nat
    var tail: nat
    ghost var contents: string

    ghost predicate Valid()
      reads this, buffer
    {
      && Holds(buffer[..], tail, contents)
      && bytesLeft == buffer.Length - |contents| && head == Ahead(buffer.Length, tail, |contents|)
    }

    constructor (size: nat)
      requires size > 0
      ensures Valid() && contents == "" && buffer.Length == size
    {
      buffer := new char[size](_ => '\0');
      bytesLeft, head, tail, contents := size, 0, 0, "";
    }

    /** `memcpy` into the buffer. */
    method CopyIn(at: nat, src: string)
      requires at + |src| <= buffer.Length
      modifies buffer
      ensures forall c :: 0 <= c < buffer.Length ==>
                            buffer[c] == if at <= c < at + |src| then src[c - at] else old(buffer[c])
    {
      for k := 0 to |src|
        invariant forall c :: 0 <= c < buffer.Length ==>
                                buffer[c] == if at <= c < at + k then src[c - at] else old(buffer[c])
      {
        buffer[at + k] := src[k];
      }
    }

    /** Step 3 of a commit: the message in one or two pieces. */
    method WriteMessage(oldHead: nat, newHead: nat, msg: string)
      requires |msg| < buffer.Length && oldHead < buffer.Length && newHead == Ahead(buffer.Length, oldHead, |msg|)
      modifies buffer
      ensures buffer[..] == Spliced(old(buffer[..]), oldHead, msg)
    {
      hide Spliced;
      if newHead < oldHead {
        var firstPart := buffer.Length - oldHead;
        CopyIn(oldHead, msg[..firstPart]);
        CopyIn(0, msg[firstPart..]);
      } else {
        CopyIn(oldHead, msg);
      }
    }

    /** Appends the whole message if there is room for it, and otherwise changes nothing. */
    method Commit(msg: string)
      requires Valid() && |msg| < buffer.Length
      modifies this, buffer
      ensures Valid()
      ensures contents == if |msg| <= old(bytesLeft) then old(contents) + msg else old(contents)
      ensures |msg| > old(bytesLeft) ==> buffer[..] == old(buffer[..]) && bytesLeft == old(bytesLeft)
    {
      hide Holds, Spliced;
      HoldsBounds(buffer[..], tail, contents);
      bytesLeft := bytesLeft - |msg|;
      if bytesLeft < 0 {
        bytesLeft := bytesLeft + |msg|;
        return;
      }
      var oldHead := head;
      var newHead := (oldHead + |msg|) % buffer.Length;
      AheadIsRemainder(buffer.Length, oldHead, |msg|);
      head := newHead;
      SplicedHolds(buffer[..], tail, contents, msg);
      WriteMessage(oldHead, newHead, msg);
      contents := contents + msg;
    }

    /** `HardenSingleCore`: prints a stretch of the buffer without its NULs. */
    method Harden(from: nat, size: nat) returns (out: string)
      requires from + size <= buffer.Length
      ensures out == NonNul(buffer[from..from + size])
    {
      out := "";
      for k := 0 to size
        invariant out == NonNul(buffer[from..from + k])
      {
        NonNulNext(buffer[from..from + size], k);
        assert buffer[from..from + size][..k + 1] == buffer[from..from + (k + 1)];
        assert buffer[from..from + size][..k] == buffer[from..from + k];
        if buffer[from + k] != '\0' {
          out := out + [buffer[from + k]];
        }
      }
    }

    /** Prints the next `size` stored bytes and moves the tail past them. */
    method DumpBatch(size: nat) returns (out: string)
      requires Valid() && size <= |contents|
      modifies this
      ensures Valid() && contents == old(contents)[size..] && out == NonNul(old(contents)[..size])
    {
      hide Holds, NonNul;
      var n := buffer.Length;
      HoldsBounds(buffer[..], tail, contents);
      FrontOfText(buffer[..], tail, contents, size);
      if tail + size > n {
        var first := n - tail;
        out := Harden(tail, first);
        var rest := Harden(0, size - first);
        NonNulConcat(buffer[tail..tail + first], buffer[0..size - first]);
        assert buffer[tail..tail + first] == buffer[..][tail..]
               && buffer[0..size - first] == buffer[..][..size - first];
        out := out + rest;
      } else {
        out := Harden(tail, size);
        assert buffer[tail..tail + size] == buffer[..][tail..tail + size];
      }
      AheadIsRemainder(n, tail, size);
      tail := (tail + size) % n;
      bytesLeft := bytesLeft + size;
      contents := contents[size..];
    }

    /** Prints everything stored, in batches, and releases it. */
    method Dump() returns (out: string)
      requires Valid()
      modifies this
      ensures Valid() && contents == "" && bytesLeft == buffer.Length
      ensures out == NonNul(old(contents))
    {
      hide Holds, NonNul;
      ghost var text := contents;
      var bytesToWrite := buffer.Length - bytesLeft;
      out := "";
      ghost var done := 0;
      NonNulEmpty();
      while bytesToWrite > 0
        invariant Valid() && 0 <= done <= |text| && bytesToWrite == |contents| && contents == text[done..]
        invariant out == NonNul(text[..done])
      {
        var batch := if bytesToWrite < BATCH_SIZE then bytesToWrite else BATCH_SIZE;
        var part := DumpBatch(batch);
        NonNulConcat(text[..done], text[done..][..batch]);
        assert text[..done] + text[done..][..batch] == text[..done + batch];
        out := out + part;
        bytesToWrite := bytesToWrite - batch;
        done := done + batch;
      }
      assert text[..done] == text;
    }
  }

  lemma HoldsBounds(buf: string, tail: nat, text: string)
    requires Holds(buf, tail, text)
    ensures tail < |buf| && |text| <= |buf|
  {
  }

  lemma NonNulEmpty()
    ensures NonNul("") == ""
  {
  }
}
