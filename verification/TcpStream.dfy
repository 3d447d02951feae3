/** Segmentation by the sender and reassembly by the receiver (12-tcp_stack/tcp_sock.c, tcp_out.c). */
module TcpStream {
  import opened MachineInts
  import opened Options
  import opened TcpSerial
  import R = TcpRing

  const MAX_PAYLOAD := 1460  // 1514 minus the Ethernet, IP and TCP header sizes

  /** A data segment: sequence number of its first byte, and payload. */
  datatype Segment = Segment(seqNum: u32, data: seq<u8>)

  // ---- Sender ----

  /** A stretch of the stream. */
  datatype Piece = Piece(start: nat, length: nat)

  /** How tcp_sock_write cuts the bytes from `start` on: full payloads, then what is left. */
  function Cut(start: nat, total: nat): seq<Piece>
    requires start <= total
    decreases total - start
  {
    if total - start > MAX_PAYLOAD then [Piece(start, MAX_PAYLOAD)] + Cut(start + MAX_PAYLOAD, total)
    else [Piece(start, total - start)]
  }

  function SegmentOf(isn: u32, stream: seq<u8>, p: Piece): Segment
    requires p.start + p.length <= |stream|
  {
    Segment(U32(isn + p.start), stream[p.start..p.start + p.length])
  }

  predicate Within(pieces: seq<Piece>, total: nat) {
    forall k :: 0 <= k < |pieces| ==> pieces[k].start + pieces[k].length <= total
  }

  function SegmentsOf(isn: u32, stream: seq<u8>, pieces: seq<Piece>): seq<Segment>
    requires Within(pieces, |stream|)
  {
    seq(|pieces|, k requires 0 <= k < |pieces| => SegmentOf(isn, stream, pieces[k]))
  }

  /** The pieces tile the stream: each starts where the one before it ends, and all but the last are full. */
  lemma {:induction false} CutTiles(start: nat, total: nat)
    requires start <= total
    ensures var c := Cut(start, total);
      && |c| > 0 && Within(c, total) && c[0].start == start && c[|c| - 1].start + c[|c| - 1].length == total
      && (forall j, k :: 0 <= j < |c| && 0 <= k < |c| && k == j + 1 ==> c[k].start == c[j].start + c[j].length)
      && (forall k :: 0 <= k < |c| ==>
        start <= c[k].start && c[k].length <= 1460 && (k + 1 < |c| ==> c[k].length == 1460)
        && (start < total ==> 0 < c[k].length))
    decreases total - start
  {
    if total - start > MAX_PAYLOAD {
      CutTiles(start + MAX_PAYLOAD, total);
    }
  }

  lemma CutIsWithin(start: nat, total: nat)
    requires start <= total
    ensures Within(Cut(start, total), total)
  {
    CutTiles(start, total);
  }

  lemma {:induction false} CutAt(start: nat, total: nat, k: nat)
    requires start <= total && k < |Cut(start, total)|
    ensures var left := total - start - k * MAX_PAYLOAD;
      && left >= 0
      && Cut(start, total)[k] == Piece(start + k * MAX_PAYLOAD, if left > MAX_PAYLOAD then MAX_PAYLOAD else left)
      && (k + 1 == |Cut(start, total)| <==> left <= MAX_PAYLOAD)
    decreases k
  {
    if k > 0 {
      CutAt(start + MAX_PAYLOAD, total, k - 1);
    }
  }

  class Sender {
    var sndNxt: u32
    var sndWnd: u32

    /** tcp_send_packet: sequence number of the packet, and the advance of snd_nxt and snd_wnd. */
    method SendPacket(data: seq<u8>) returns (s: Segment)
      modifies this
      ensures s == Segment(old(sndNxt), data)
      ensures sndNxt == U32(old(sndNxt) + |data|) && sndWnd == U32(old(sndWnd) - |data|)
    {
      s := Segment(sndNxt, data);
      sndNxt := U32(sndNxt + |data|);
      sndWnd := U32(sndWnd - |data|);
    }

    /** The loop body of tcp_sock_write: the buffer offset is the 32-bit distance of snd_nxt from its
        first value. */
    method SendFrom(buf: seq<u8>, start: u32, n: nat, ghost done: nat) returns (s: Segment)
      requires |buf| < TWO31 && done + n <= |buf| && sndNxt == U32(start + done)
      modifies this
      ensures s == SegmentOf(start, buf, Piece(done, n)) && sndNxt == U32(start + done + n)
    {
      WrappedOffset(start, done);
      U32Add(start + done, n);
      var offset := U32(sndNxt - start);
      s := SendPacket(buf[offset..offset + n]);
    }

    /** tcp_sock_write. */
    method WriteAll(buf: seq<u8>) returns (out: seq<Segment>, sent: nat)
      requires |buf| < TWO31
      modifies this
      ensures Within(Cut(0, |buf|), |buf|) && out == SegmentsOf(old(sndNxt), buf, Cut(0, |buf|))
      ensures sndNxt == U32(old(sndNxt) + |buf|) && sent == |buf|
    {
      CutIsWithin(0, |buf|);
      var start, len := sndNxt, |buf|;
      out := [];
      ghost var pieces := Cut(0, |buf|);
      while len > MAX_PAYLOAD
        invariant 0 <= len && |buf| - len == |out| * MAX_PAYLOAD
        invariant |out| < |pieces| && sndNxt == U32(start + |out| * MAX_PAYLOAD)
        invariant forall k :: 0 <= k < |out| ==> out[k] == SegmentOf(start, buf, pieces[k])
      {
        CutAt(0, |buf|, |out|);
        var s := SendFrom(buf, start, MAX_PAYLOAD, |out| * MAX_PAYLOAD);
        out := out + [s];
        len := len - MAX_PAYLOAD;
      }
      CutAt(0, |buf|, |out|);
      var s := SendFrom(buf, start, len, |out| * MAX_PAYLOAD);
      out := out + [s];
      sent := |buf|;
    }
  }

  /** The distance of two wrapped sequence numbers is the stream offset. */
  lemma WrappedOffset(start: u32, done: nat)
    requires done < TWO32
    ensures U32(U32(start + done) - start) == done
  {
  }

  lemma U32Add(x: int, n: int)
    ensures U32(U32(x) + n) == U32(x + n)
  {
  }

  // ---- Receiver ----

  /** Next expected sequence number, out-of-order segments in arrival order, bytes ready to be read. */
  datatype Receiver = Receiver(rcvNxt: u32, ofo: seq<Segment>, ready: seq<u8>)

  /** The first buffered segment that starts at the wanted sequence number. */
  function FindSegment(ofo: seq<Segment>, seqNum: u32): (r: Option<nat>)
    ensures r.Some? ==> r.value < |ofo| && ofo[r.value].seqNum == seqNum
                        && forall k :: 0 <= k < r.value ==> ofo[k].seqNum != seqNum
    ensures r == None ==> forall k :: 0 <= k < |ofo| ==> ofo[k].seqNum != seqNum
  {
    FirstIndex(ofo, (s: Segment) => s.seqNum == seqNum)
  }

  function Without<T>(s: seq<T>, k: nat): seq<T>
    requires k < |s|
  {
    seq(|s| - 1, j requires 0 <= j < |s| - 1 => if j < k then s[j] else s[j + 1])
  }

  function Deliver(r: Receiver, data: seq<u8>): Receiver {
    r.(rcvNxt := U32(r.rcvNxt + |data|), ready := r.ready + data)
  }

  /** The buffered segment `k` is delivered and dropped from the list. */
  function Take(r: Receiver, k: nat): Receiver
    requires k < |r.ofo|
  {
    Deliver(r, r.ofo[k].data).(ofo := Without(r.ofo, k))
  }

  /** The drain loop: as long as some buffered segment is the next one, deliver and drop it. */
  function Drain(r: Receiver): Receiver
    decreases |r.ofo|
  {
    match FindSegment(r.ofo, r.rcvNxt)
    case None => r
    case Some(k) => Drain(Take(r, k))
  }

  /** handle_rcv_data: the new state, and the acknowledgement number of the ACK that goes out, if one does. */
  function Receive(r: Receiver, s: Segment): (Receiver, Option<u32>) {
    if s.seqNum == r.rcvNxt then
      var after := Drain(Deliver(r, s.data));
      (after, Some(after.rcvNxt))
    else if LessThan32(r.rcvNxt, s.seqNum) then (r.(ofo := r.ofo + [s]), None)
    else (r, Some(r.rcvNxt))
  }

  /** The drain loop comes to no empty segment: write_ring_buffer asserts that there is something to write. */
  predicate Deliverable(r: Receiver)
    decreases |r.ofo|
  {
    match FindSegment(r.ofo, r.rcvNxt)
    case None => true
    case Some(k) => |r.ofo[k].data| > 0 && Deliverable(Take(r, k))
  }

  /** In particular when no buffered segment is empty. */
  lemma {:induction false} NonEmptyIsDeliverable(r: Receiver)
    requires forall k :: 0 <= k < |r.ofo| ==> |r.ofo[k].data| > 0
    ensures Deliverable(r)
    decreases |r.ofo|
  {
    match FindSegment(r.ofo, r.rcvNxt)
    case None =>
    case Some(k) => NonEmptyIsDeliverable(Take(r, k));
  }

  lemma {:induction false} DrainGrows(r: Receiver)
    ensures r.ready <= Drain(r).ready
    decreases |r.ofo|
  {
    match FindSegment(r.ofo, r.rcvNxt)
    case None =>
    case Some(k) => DrainGrows(Take(r, k));
  }

  class Socket {
    var rcvNxt: u32
    var ofo: seq<Segment>
    const rcvBuf: R.RingBuffer

    ghost predicate Valid()
      reads this, rcvBuf, rcvBuf.buf
    {
      R.Valid(rcvBuf.View())
    }

    ghost function View(): Receiver
      requires Valid()
      reads this, rcvBuf, rcvBuf.buf
    {
      Receiver(rcvNxt, ofo, R.Contents(rcvBuf.View()))
    }

    ghost function Capacity(): nat
      requires Valid()
      reads this, rcvBuf, rcvBuf.buf
    {
      rcvBuf.buf.Length - 1
    }

    constructor (rcvNxt: u32, window: nat)
      ensures Valid() && View() == Receiver(rcvNxt, [], []) && Capacity() == window
      ensures fresh(rcvBuf) && fresh(rcvBuf.buf)
    {
      this.rcvNxt, ofo := rcvNxt, [];
      rcvBuf := new R.RingBuffer(window);
    }

    /** The payload goes to the ring buffer and rcv_nxt moves on. */
    method DeliverData(data: seq<u8>)
      requires Valid() && 0 < |data| && |View().ready + data| <= Capacity()
      modifies this, rcvBuf, rcvBuf.buf
      ensures Valid() && View() == Deliver(old(View()), data)
    {
      R.UsedIsLength(rcvBuf.View());
      rcvBuf.WriteBuffer(data);
      rcvNxt := U32(rcvNxt + |data|);
    }

    /** One pass over the out-of-order list: the first segment that is next is delivered and dropped. */
    method DrainOne(ghost goal: Receiver) returns (flag: bool)
      requires Valid() && Deliverable(View()) && goal == Drain(View()) && |goal.ready| <= Capacity()
      modifies this, rcvBuf, rcvBuf.buf
      ensures Valid() && Deliverable(View()) && goal == Drain(View()) && Capacity() == old(Capacity())
      ensures flag ==> |ofo| < |old(ofo)|
      ensures !flag ==> View() == old(View()) == goal
    {
      flag := false;
      var k := 0;
      while k < |ofo| && ofo[k].seqNum != rcvNxt
        invariant k <= |ofo| && forall j :: 0 <= j < k ==> ofo[j].seqNum != rcvNxt
      {
        k := k + 1;
      }
      if k < |ofo| {
        DrainGrows(Take(View(), k));
        DeliverData(ofo[k].data);
        ofo := Without(ofo, k);
        flag := true;
      }
    }

    /** tcp_send_control_packet with the ACK flag: the acknowledgement number is rcv_nxt. */
    method SendAck() returns (ack: Option<u32>)
      ensures ack == Some(rcvNxt)
    {
      ack := Some(rcvNxt);
    }

    /** handle_rcv_data: `flag` tells whether a pass over the list found the next segment. */
    method HandleRcvData(s: Segment) returns (ack: Option<u32>)
      requires Valid() && |Receive(View(), s).0.ready| <= Capacity()
      requires s.seqNum == rcvNxt ==> |s.data| > 0 && Deliverable(Deliver(View(), s.data))
      modifies this, rcvBuf, rcvBuf.buf
      ensures Valid() && (View(), ack) == Receive(old(View()), s)
      ensures ack.Some? ==> ack.value == rcvNxt
      ensures ack == None <==> s.seqNum != old(rcvNxt) && LessThan32(old(rcvNxt), s.seqNum)
    {
      if s.seqNum == rcvNxt {
        ghost var goal := Drain(Deliver(View(), s.data));
        DrainGrows(Deliver(View(), s.data));
        DeliverData(s.data);
        var flag := true;
        while flag
          invariant Valid() && Deliverable(View()) && goal == Drain(View()) && |goal.ready| <= Capacity()
          invariant !flag ==> View() == goal
          decreases |ofo|, flag
        {
          flag := DrainOne(goal);
        }
        ack := SendAck();
      } else if LessThan32(rcvNxt, s.seqNum) {
        ofo := ofo + [s];
        ack := None;
      } else {
        ack := SendAck();
      }
    }

    /** tcp_sock_read once data is available. */
    method ReadData(len: int) returns (out: seq<u8>, n: int)
      requires Valid()
      modifies this, rcvBuf
      ensures Valid() && old(View().ready) == out + View().ready
      ensures View() == old(View()).(ready := View().ready)
      ensures n == if len < |old(View().ready)| then len else |old(View().ready)|
      ensures |out| == if n > 0 then n else 0
    {
      R.UsedIsLength(rcvBuf.View());
      out, n := rcvBuf.ReadBuffer(len);
      assert rcvBuf.buf[..] == old(rcvBuf.buf[..]);
    }
  }
}
