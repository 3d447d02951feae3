/** The receive buffer: a circular byte array with one slot always free (12-tcp_stack/include/ring_buffer.h). */
module TcpRing {
  import opened MachineInts

  /** Contents of the fields: `buf` has one byte more than the capacity. */
  datatype Ring = Ring(buf: seq<u8>, head: nat, tail: nat)

  predicate Valid(r: Ring) {
    r.head < |r.buf| && r.tail < |r.buf|
  }

  function Used(r: Ring): (n: nat)
    requires Valid(r)
    ensures n < |r.buf|
  {
    (r.tail - r.head + |r.buf|) % |r.buf|
  }

  function Free(r: Ring): (n: nat)
    requires Valid(r)
    ensures Used(r) + n == |r.buf| - 1
  {
    |r.buf| - Used(r) - 1
  }

  function Length(r: Ring): nat
    requires Valid(r)
  {
    if r.head <= r.tail then r.tail - r.head else r.tail - r.head + |r.buf|
  }

  /** The place of the byte of the queue with index `k`. */
  function Slot(r: Ring, k: nat): (i: nat)
    requires Valid(r) && k < |r.buf|
    ensures i < |r.buf|
  {
    if r.head + k < |r.buf| then r.head + k else r.head + k - |r.buf|
  }

  /** The queued bytes in the order they will be read. */
  function Contents(r: Ring): seq<u8>
    requires Valid(r)
  {
    seq(Length(r), k requires 0 <= k < Length(r) => r.buf[Slot(r, k)])
  }

  function Init(capacity: nat): Ring {
    Ring(seq(capacity + 1, _ => 0), 0, 0)
  }

  /** memcpy of `data` to offset `at`. */
  function CopyAt(buf: seq<u8>, at: nat, data: seq<u8>): seq<u8>
    requires at + |data| <= |buf|
  {
    seq(|buf|, i requires 0 <= i < |buf| => if at <= i < at + |data| then data[i - at] else buf[i])
  }

  /** The copies of write_ring_buffer: one, or two when the data wraps around the end. */
  function CopyWrapped(buf: seq<u8>, tail: nat, data: seq<u8>): seq<u8>
    requires tail < |buf| && |data| < |buf|
  {
    var right := |buf| - tail;
    if tail + |data| > |buf| then CopyAt(CopyAt(buf, tail, data[..right]), 0, data[right..])
    else CopyAt(buf, tail, data)
  }

  /** write_ring_buffer. */
  function Write(r: Ring, data: seq<u8>): Ring
    requires Valid(r) && 0 < |data| <= Free(r)
  {
    Ring(CopyWrapped(r.buf, r.tail, data), r.head, (r.tail + |data|) % |r.buf|)
  }

  function ReadLength(r: Ring, size: int): int
    requires Valid(r)
  {
    if Used(r) < size then Used(r) else size
  }

  /** read_ring_buffer: the bytes it copies out, and what is left. */
  function Read(r: Ring, size: int): (Ring, seq<u8>)
    requires Valid(r)
  {
    var len := ReadLength(r, size);
    if len <= 0 then (r, [])
    else
      var out :=
        if r.head + len > |r.buf| then r.buf[r.head..] + r.buf[..len - (|r.buf| - r.head)]
        else r.buf[r.head..r.head + len];
      (r.(head := (r.head + len) % |r.buf|), out)
  }

  lemma UsedIsLength(r: Ring)
    requires Valid(r)
    ensures Used(r) == |Contents(r)|
  {
    ModOnce(r.tail - r.head + |r.buf|, |r.buf|);
  }

  /** Where each byte of the array comes from after a write. */
  lemma WrittenAt(buf: seq<u8>, tail: nat, data: seq<u8>, i: nat)
    requires tail < |buf| && |data| < |buf| && i < |buf|
    ensures |CopyWrapped(buf, tail, data)| == |buf|
    ensures CopyWrapped(buf, tail, data)[i] ==
      if tail <= i < tail + |data| then data[i - tail]
      else if i < tail + |data| - |buf| then data[i + |buf| - tail]
      else buf[i]
  {
  }

  /** How far a write moves the tail. */
  lemma WritePosition(r: Ring, data: seq<u8>)
    requires Valid(r) && 0 < |data| <= Free(r)
    ensures var w := Write(r, data);
      && |w.buf| == |r.buf| && Valid(w) && |Contents(w)| == |Contents(r)| + |data|
      && w.tail == (if r.tail + |data| < |r.buf| then r.tail + |data| else r.tail + |data| - |r.buf|)
  {
    WrittenAt(r.buf, r.tail, data, 0);
    ModOnce(r.tail + |data|, |r.buf|);
    UsedIsLength(r);
    UsedIsLength(Write(r, data));
  }

  /** Where the bytes of the queue are once the data is copied in and the tail moved. */
  lemma AppendsAt(r: Ring, w: Ring, data: seq<u8>, k: nat)
    requires Valid(r) && |Contents(r)| + |data| < |r.buf| && w.head == r.head
    requires w.buf == CopyWrapped(r.buf, r.tail, data) && Valid(w)
    requires k < |Contents(w)| == |Contents(r)| + |data|
    ensures Contents(w)[k] == (Contents(r) + data)[k]
  {
    WrittenAt(r.buf, r.tail, data, Slot(r, k));
  }

  /** A write appends to the queue, wrapping or not. */
  lemma WriteAppends(r: Ring, data: seq<u8>)
    requires Valid(r) && 0 < |data| <= Free(r)
    ensures var w := Write(r, data); Valid(w) && |w.buf| == |r.buf| && Contents(w) == Contents(r) + data
  {
    var w := Write(r, data);
    WritePosition(r, data);
    UsedIsLength(r);
    forall k | 0 <= k < |Contents(w)| ensures Contents(w)[k] == (Contents(r) + data)[k] {
      AppendsAt(r, w, data, k);
    }
  }

  /** The ring with its head moved on by `len`. */
  function Ahead(r: Ring, len: nat): Ring
    requires Valid(r)
  {
    r.(head := (r.head + len) % |r.buf|)
  }

  lemma ReadPosition(r: Ring, len: nat)
    requires Valid(r) && len <= |Contents(r)|
    ensures Valid(Ahead(r, len)) && |Contents(Ahead(r, len))| == |Contents(r)| - len
    ensures Ahead(r, len).head == if r.head + len < |r.buf| then r.head + len else r.head + len - |r.buf|
  {
    UsedIsLength(r);
    ModOnce(r.head + len, |r.buf|);
    UsedIsLength(Ahead(r, len));
  }

  lemma LeavesAt(r: Ring, t: Ring, len: nat, k: nat)
    requires Valid(r) && len + k < |Contents(r)| && t.buf == r.buf && t.tail == r.tail
    requires t.head == if r.head + len < |r.buf| then r.head + len else r.head + len - |r.buf|
    requires Valid(t) && |Contents(t)| == |Contents(r)| - len
    ensures Contents(t)[k] == Contents(r)[len + k]
  {
  }

  lemma ReadLeaves(r: Ring, len: nat)
    requires Valid(r) && len <= |Contents(r)|
    ensures Valid(Ahead(r, len)) && Contents(Ahead(r, len)) == Contents(r)[len..]
  {
    ReadPosition(r, len);
    var t := Ahead(r, len);
    forall k | 0 <= k < |Contents(t)| ensures Contents(t)[k] == Contents(r)[len..][k] {
      LeavesAt(r, t, len, k);
    }
  }

  lemma ReadCopies(r: Ring, size: int)
    requires Valid(r) && ReadLength(r, size) > 0
    ensures ReadLength(r, size) <= |Contents(r)| && Read(r, size).1 == Contents(r)[..ReadLength(r, size)]
  {
    UsedIsLength(r);
    var len, out := ReadLength(r, size), Read(r, size).1;
    assert |out| == len && forall k :: 0 <= k < len ==> out[k] == Contents(r)[k];
  }

  /** A read takes the oldest bytes off the queue, as many as asked for and available. */
  lemma ReadTakes(r: Ring, size: int)
    requires Valid(r)
    ensures var (t, out) := Read(r, size); var len := if |Contents(r)| < size then |Contents(r)| else size;
      && ReadLength(r, size) == len && Valid(t) && |t.buf| == |r.buf|
      && (if len <= 0 then out == [] && t == r
          else len <= |Contents(r)| && out == Contents(r)[..len] && Contents(t) == Contents(r)[len..])
      && out + Contents(t) == Contents(r)
  {
    UsedIsLength(r);
    var len := ReadLength(r, size);
    if len > 0 {
      ReadCopies(r, size);
      ReadLeaves(r, len);
      assert Read(r, size).0 == Ahead(r, len);
    }
  }

  /** The same queue in the same buffer: empty and full are never confused. */
  lemma EmptyAndFull(r: Ring)
    requires Valid(r)
    ensures Used(r) == 0 <==> Contents(r) == []
    ensures Free(r) == 0 <==> |Contents(r)| == |r.buf| - 1
    ensures Used(r) == 0 <==> r.head == r.tail
  {
    UsedIsLength(r);
  }

  // ---- Runs ----

  datatype Op = PutOp(data: seq<u8>) | GetOp(size: int)

  /** A ring together with everything ever written to it and read from it. */
  datatype Traced = Traced(ring: Ring, written: seq<u8>, read: seq<u8>)

  /** A write is attempted only when its assertion holds. */
  predicate Step(s: Traced, op: Op, t: Traced)
    requires Valid(s.ring)
  {
    match op
    case PutOp(data) =>
      0 < |data| <= Free(s.ring) && t == Traced(Write(s.ring, data), s.written + data, s.read)
    case GetOp(size) =>
      t == Traced(Read(s.ring, size).0, s.written, s.read + Read(s.ring, size).1)
  }

  ghost predicate Run(states: seq<Traced>, ops: seq<Op>) {
    && |states| == |ops| + 1
    && Valid(states[0].ring) && Contents(states[0].ring) == [] && states[0].written == [] && states[0].read == []
    && forall k {:trigger ops[k]} :: 0 <= k < |ops| ==> Valid(states[k].ring) && Step(states[k], ops[k], states[k + 1])
  }

  /** Written is read followed by queued. */
  ghost predicate Balanced(s: Traced, size: nat) {
    Valid(s.ring) && |s.ring.buf| == size && s.written == s.read + Contents(s.ring)
  }

  lemma StepBalanced(s: Traced, op: Op, t: Traced, size: nat)
    requires Balanced(s, size) && Step(s, op, t)
    ensures Balanced(t, size)
  {
    match op {
      case PutOp(data) =>
        WriteAppends(s.ring, data);
        Regroup(s.read, Contents(s.ring), data);
      case GetOp(n) =>
        ReadTakes(s.ring, n);
        Regroup(s.read, Read(s.ring, n).1, Contents(t.ring));
    }
  }

  lemma Regroup(a: seq<u8>, b: seq<u8>, c: seq<u8>)
    ensures (a + b) + c == a + (b + c)
  {
  }

  /** The ring refines a bounded FIFO queue: over every sequence of reads and writes, what has been
      written is what has been read followed by what is queued, and used plus free is constant. */
  lemma {:induction false} RingIsFifo(states: seq<Traced>, ops: seq<Op>, k: nat)
    requires Run(states, ops) && k < |states|
    ensures Balanced(states[k], |states[0].ring.buf|)
    ensures var s := states[k];
      Used(s.ring) == |s.written| - |s.read| && Used(s.ring) + Free(s.ring) == |states[0].ring.buf| - 1
  {
    if k > 0 {
      RingIsFifo(states, ops, k - 1);
      StepBalanced(states[k - 1], ops[k - 1], states[k], |states[0].ring.buf|);
    }
    UsedIsLength(states[k].ring);
  }

  // ---- The buffer in place ----

  class RingBuffer {
    const buf: array<u8>
    var head: nat
    var tail: nat

    function View(): Ring
      reads this, buf
    {
      Ring(buf[..], head, tail)
    }

    /** alloc_ring_buffer. */
    constructor (capacity: nat)
      ensures fresh(buf) && View() == Init(capacity) && Valid(View()) && Contents(View()) == []
    {
      buf := new u8[capacity + 1](_ => 0);
      head, tail := 0, 0;
      new;
      assert buf[..] == Init(capacity).buf;
    }

    /** memcpy into the buffer. */
    method CopyIn(at: nat, data: seq<u8>)
      requires at + |data| <= buf.Length
      modifies buf
      ensures buf[..] == CopyAt(old(buf[..]), at, data)
    {
      for k := 0 to |data|
        invariant forall i :: 0 <= i < buf.Length ==> buf[i] == if at <= i < at + k then data[i - at] else old(buf[i])
      {
        buf[at + k] := data[k];
      }
      assert buf[..] == CopyAt(old(buf[..]), at, data);
    }

    /** write_ring_buffer; its assertion is the precondition. */
    method WriteBuffer(data: seq<u8>)
      requires Valid(View()) && 0 < |data| <= Free(View())
      modifies this, buf
      ensures Valid(View()) && View() == Write(old(View()), data)
      ensures Contents(View()) == old(Contents(View())) + data
    {
      WriteAppends(View(), data);
      if tail + |data| > buf.Length {
        var right := buf.Length - tail;
        CopyIn(tail, data[..right]);
        CopyIn(0, data[right..]);
      } else {
        CopyIn(tail, data);
      }
      tail := (tail + |data|) % buf.Length;
    }

    /** The copies of read_ring_buffer: one, or two when the data wraps around the end. */
    method CopyOut(len: nat) returns (out: seq<u8>)
      requires Valid(View()) && 0 < len <= Used(View())
      ensures out == Read(View(), len).1
    {
      if head + len > buf.Length {
        out := buf[head..] + buf[..len - (buf.Length - head)];
      } else {
        out := buf[head..head + len];
      }
    }

    /** read_ring_buffer. */
    method ReadBuffer(size: int) returns (out: seq<u8>, len: int)
      requires Valid(View())
      modifies this
      ensures Valid(View()) && (View(), out) == Read(old(View()), size)
      ensures len == if |old(Contents(View()))| < size then |old(Contents(View()))| else size
      ensures old(Contents(View())) == out + Contents(View()) && |out| == if len > 0 then len else 0
    {
      ReadTakes(View(), size);
      var used := (tail - head + buf.Length) % buf.Length;
      len := if used < size then used else size;
      out := [];
      if len > 0 {
        out := CopyOut(len);
        head := (head + len) % buf.Length;
      }
    }
  }
}
