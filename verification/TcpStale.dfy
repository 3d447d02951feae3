/** A segment that arrived twice ahead of its time leaves a copy in the out-of-order list. What that does, exactly:
    the bytes delivered are those of the stream as long as rcv_nxt does not land on the sequence number of such a
    copy (12-tcp_stack/tcp_sock.c). */
module TcpStale {
  import opened MachineInts
  import opened Options
  import opened TcpStream
  import opened TcpEndToEnd

  // ---- What is delivered does not depend on the bytes ----

  /** The two receivers differ only in the bytes they hold. */
  predicate SameShape(a: Receiver, b: Receiver) {
    && a.rcvNxt == b.rcvNxt && |a.ready| == |b.ready| && SameSizes(a.ofo, b.ofo)
  }

  predicate SameSizes(a: seq<Segment>, b: seq<Segment>) {
    |a| == |b| && forall k :: 0 <= k < |a| ==> a[k].seqNum == b[k].seqNum && |a[k].data| == |b[k].data|
  }

  lemma FindsSame(a: seq<Segment>, b: seq<Segment>, seqNum: u32)
    requires SameSizes(a, b)
    ensures FindSegment(a, seqNum) == FindSegment(b, seqNum)
  {
  }

  lemma {:induction false} DrainsSame(a: Receiver, b: Receiver)
    requires SameShape(a, b)
    ensures SameShape(Drain(a), Drain(b))
    decreases |a.ofo|
  {
    FindsSame(a.ofo, b.ofo, a.rcvNxt);
    match FindSegment(a.ofo, a.rcvNxt)
    case None =>
    case Some(k) => DrainsSame(Take(a, k), Take(b, k));
  }

  lemma AppliesSame(c: Connection, d: Connection, e: Event, sent: seq<Segment>, other: seq<Segment>, window: nat)
    requires SameShape(c.r, d.r) && SameSizes(sent, other) && Enabled(c, e, sent, window)
    ensures Enabled(d, e, other, window) && SameShape(Apply(c, e, sent).r, Apply(d, e, other).r)
  {
    if e.Arrive? && sent[e.k].seqNum == c.r.rcvNxt {
      DrainsSame(Deliver(c.r, sent[e.k].data), Deliver(d.r, other[e.k].data));
    }
  }

  lemma RunGoesOn(isn: u32, sent: seq<Segment>, window: nat, states: seq<Connection>, events: seq<Event>, e: Event)
    requires Run(isn, sent, window, states, events) && Enabled(states[|events|], e, sent, window)
    ensures Run(isn, sent, window, states + [Apply(states[|events|], e, sent)], events + [e])
  {
    var states', events' := states + [Apply(states[|events|], e, sent)], events + [e];
    forall t | 0 <= t < |events'| ensures StepOk(sent, window, states', events', t) {
      if t < |events| {
        assert StepOk(sent, window, states, events, t);
      }
    }
  }

  lemma RunBefore(isn: u32, sent: seq<Segment>, window: nat, states: seq<Connection>, events: seq<Event>)
    requires Run(isn, sent, window, states, events) && events != []
    ensures Run(isn, sent, window, states[..|events|], events[..|events| - 1])
    ensures Enabled(states[|events| - 1], events[|events| - 1], sent, window)
    ensures states[|events|] == Apply(states[|events| - 1], events[|events| - 1], sent)
  {
    var states', events' := states[..|events|], events[..|events| - 1];
    assert StepOk(sent, window, states, events, |events| - 1);
    forall t | 0 <= t < |events'| ensures StepOk(sent, window, states', events', t) {
      assert StepOk(sent, window, states, events, t);
    }
  }

  /** The same events on other bytes. */
  lemma {:induction false} Replays(isn: u32, sent: seq<Segment>, other: seq<Segment>, window: nat,
                                   states: seq<Connection>, events: seq<Event>) returns (replay: seq<Connection>)
    requires Run(isn, sent, window, states, events) && SameSizes(sent, other)
    ensures Run(isn, other, window, replay, events) && SameShape(states[|events|].r, replay[|events|].r)
    decreases |events|
  {
    if events == [] {
      replay := states;
    } else {
      var n := |events| - 1;
      RunBefore(isn, sent, window, states, events);
      var before := Replays(isn, sent, other, window, states[..|events|], events[..n]);
      AppliesSame(states[n], before[n], events[n], sent, other, window);
      RunGoesOn(isn, other, window, before, events[..n], events[n]);
      assert events[..n] + [events[n]] == events;
      replay := before + [Apply(before[n], events[n], other)];
    }
  }

  lemma SameCut(isn: u32, stream: seq<u8>, other: seq<u8>, pieces: seq<Piece>)
    requires |stream| == |other| && Within(pieces, |stream|)
    ensures SameSizes(SegmentsOf(isn, stream, pieces), SegmentsOf(isn, other, pieces))
  {
  }

  // ---- A landing delivers the wrong bytes ----

  /** A stream that differs at one place. */
  function Marked(total: nat, x: nat): (s: seq<u8>)
    ensures |s| == total
  {
    seq(total, k => if k == x then 1 else 0)
  }

  lemma PrefixAt(a: seq<u8>, b: seq<u8>, stream: seq<u8>, k: nat)
    requires a <= b && k < |a| && b <= stream
    ensures k < |stream| && stream[k] == a[k]
  {
  }

  /** The piece taken there brings its own first byte. */
  lemma WrongByte(isn: u32, stream: seq<u8>, out: seq<u8>, i: Ideal, r: Receiver, k: nat)
    requires Tied(isn, stream, out, i, r) && AllPieces(i.waiting, |stream|)
    requires k < |i.waiting| && i.waiting[k].start != i.next && stream == Marked(|stream|, i.next)
    ensures !(out + Drain(Take(r, k)).ready <= stream)
  {
    var p := i.waiting[k];
    var after := Take(r, k);
    DrainGrows(after);
    assert r.ofo[k] == SegmentOf(isn, stream, p);
    assert (out + r.ready + r.ofo[k].data)[i.next] == stream[p.start] == 0;
    assert out + after.ready == out + r.ready + r.ofo[k].data;
    if out + Drain(after).ready <= stream {
      PrefixAt(out + after.ready, out + Drain(after).ready, stream, i.next);
    }
  }

  /** One turn of the drain loop on the way to a landing. */
  lemma LandingStep(isn: u32, stream: seq<u8>, out: seq<u8>, i: Ideal, r: Receiver, x: nat) returns (k: nat)
    requires Tied(isn, stream, out, i, r) && Landing(i) == Some(x)
    ensures k < |i.waiting| && FindSegment(r.ofo, r.rcvNxt) == Some(k)
    ensures if i.waiting[k].start != i.next then x == i.next else Landing(TakeIdeal(i, k)) == Some(x)
  {
    FindsWrapped(isn, stream, i.waiting, i.next);
    k := FindWrapped(i.waiting, i.next).value;
  }

  lemma StillPieces(waiting: seq<Piece>, k: nat, total: nat)
    requires AllPieces(waiting, total) && k < |waiting|
    ensures AllPieces(Without(waiting, k), total)
  {
  }

  lemma {:induction false} LandingDiverges(isn: u32, stream: seq<u8>, out: seq<u8>, i: Ideal, r: Receiver,
                                           x: nat)
    requires Tied(isn, stream, out, i, r) && AllPieces(i.waiting, |stream|)
    requires Landing(i) == Some(x) && stream == Marked(|stream|, x)
    ensures !(out + Drain(r).ready <= stream)
    decreases |i.waiting|
  {
    var k := LandingStep(isn, stream, out, i, r, x);
    if i.waiting[k].start != i.next {
      WrongByte(isn, stream, out, i, r, k);
    } else {
      TakeTied(isn, stream, out, i, r, k);
      StillPieces(i.waiting, k, |stream|);
      LandingDiverges(isn, stream, out, TakeIdeal(i, k), Take(r, k), x);
    }
  }

  /** So an arrival that makes it land brings something wrong. */
  lemma ArrivalDiverges(isn: u32, stream: seq<u8>, out: seq<u8>, i: Ideal, r: Receiver, p: Piece, x: nat)
    requires Tied(isn, stream, out, i, r) && AllPieces(i.waiting, |stream|) && p.start + p.length <= |stream|
    requires p.start == i.next && Landing(Accept(i, p)) == Some(x) && stream == Marked(|stream|, x)
    ensures !(out + Receive(r, SegmentOf(isn, stream, p)).0.ready <= stream)
  {
    DeliverTied(isn, stream, out, i, r, p);
    LandingDiverges(isn, stream, out, Accept(i, p), Deliver(r, SegmentOf(isn, stream, p).data), x);
  }

  /** What has been delivered stays delivered. */
  lemma DeliveredGrows(c: Connection, e: Event, sent: seq<Segment>)
    requires e.Arrive? ==> e.k < |sent|
    ensures c.out + c.r.ready <= Apply(c, e, sent).out + Apply(c, e, sent).r.ready
  {
    match e
    case Arrive(k) =>
      if sent[k].seqNum == c.r.rcvNxt {
        DrainGrows(Deliver(c.r, sent[k].data));
      }
    case ReadBytes(size) =>
      var n := if size < |c.r.ready| then size else |c.r.ready|;
      if n > 0 {
        assert c.out + c.r.ready[..n] + c.r.ready[n..] == c.out + c.r.ready;
      }
  }

  lemma {:induction false} RunGrows(isn: u32, sent: seq<Segment>, window: nat, states: seq<Connection>,
                                    events: seq<Event>, a: nat, b: nat)
    requires Run(isn, sent, window, states, events) && a <= b < |states|
    ensures states[a].out + states[a].r.ready <= states[b].out + states[b].r.ready
  {
    if a < b {
      RunGrows(isn, sent, window, states, events, a, b - 1);
      assert StepOk(sent, window, states, events, b - 1);
      DeliveredGrows(states[b - 1], events[b - 1], sent);
    }
  }

  // ---- The exact condition ----

  ghost predicate NoLanding(pieces: seq<Piece>, events: seq<Event>, n: nat)
    requires InRange(events, |pieces|) && n <= |events|
  {
    forall u {:trigger LandsAt(pieces, events, u)} :: 0 <= u < n ==> !LandsAt(pieces, events, u)
  }

  /** Until something lands, arrivals are less than 2^31 bytes from what is expected. */
  ghost predicate NearArrivals(pieces: seq<Piece>, events: seq<Event>)
    requires InRange(events, |pieces|)
  {
    forall u {:trigger NearAt(pieces, events, u)} :: 0 <= u < |events| && NoLanding(pieces, events, u) ==>
      NearAt(pieces, events, u)
  }

  /** Whatever the bytes of the stream, these events deliver a prefix of it. */
  ghost predicate AlwaysPrefix(isn: u32, total: nat, pieces: seq<Piece>, window: nat, events: seq<Event>)
    requires Within(pieces, total)
  {
    forall stream: seq<u8>, states: seq<Connection> ::
      |stream| == total && Run(isn, SegmentsOf(isn, stream, pieces), window, states, events) ==>
        states[|events|].out + states[|events|].r.ready <= stream
  }

  lemma NearIsWindowed(pieces: seq<Piece>, events: seq<Event>, n: nat)
    requires InRange(events, |pieces|) && n <= |events| && NearArrivals(pieces, events) && NoLanding(pieces, events, n)
    ensures Windowed(pieces, events, n)
  {
    forall u | 0 <= u < n ensures InWindow(pieces, events, u) {
      assert NoLanding(pieces, events, u);
      assert NearAt(pieces, events, u) && !LandsAt(pieces, events, u);
    }
  }

  lemma {:induction false} FirstLanding(pieces: seq<Piece>, events: seq<Event>, n: nat) returns (u: nat)
    requires InRange(events, |pieces|) && n <= |events| && !NoLanding(pieces, events, n)
    ensures u < n && LandsAt(pieces, events, u) && NoLanding(pieces, events, u)
  {
    if NoLanding(pieces, events, n - 1) {
      u := n - 1;
    } else {
      u := FirstLanding(pieces, events, n - 1);
    }
  }

  /** The first landing of a run on the stream that is marked where it happens. */
  lemma {:induction false} MarkedFails(isn: u32, stream: seq<u8>, pieces: seq<Piece>, window: nat,
                                       states: seq<Connection>, events: seq<Event>, u: nat, x: nat)
    requires AllPieces(pieces, |stream|) && Within(pieces, |stream|) && InRange(events, |pieces|)
    requires Run(isn, SegmentsOf(isn, stream, pieces), window, states, events)
    requires u < |events| && Windowed(pieces, events, u) && LandsAt(pieces, events, u)
    requires Landing(Accept(IdealAt(pieces, events, u), pieces[events[u].k])) == Some(x)
    requires stream == Marked(|stream|, x)
    ensures !(states[|events|].out + states[|events|].r.ready <= stream)
  {
    var sent := SegmentsOf(isn, stream, pieces);
    var c, i, p := states[u], IdealAt(pieces, events, u), pieces[events[u].k];
    RunAssembles(isn, stream, pieces, window, states, events, u);
    assert StepOk(sent, window, states, events, u);
    ArrivalDiverges(isn, stream, c.out, i, c.r, p, x);
    RunGrows(isn, sent, window, states, events, u + 1, |events|);
  }

  /** The events of a run whose arrivals are less than 2^31 bytes from what is expected deliver a prefix of the stream,
      whatever its bytes, exactly when rcv_nxt never lands on the sequence number of a segment that belongs
      elsewhere. */
  lemma PrefixIffNoLanding(isn: u32, stream: seq<u8>, pieces: seq<Piece>, window: nat,
                           states: seq<Connection>, events: seq<Event>)
    requires AllPieces(pieces, |stream|) && Within(pieces, |stream|) && InRange(events, |pieces|)
    requires Run(isn, SegmentsOf(isn, stream, pieces), window, states, events) && NearArrivals(pieces, events)
    ensures AlwaysPrefix(isn, |stream|, pieces, window, events) <==> NoLanding(pieces, events, |events|)
  {
    if NoLanding(pieces, events, |events|) {
      NearIsWindowed(pieces, events, |events|);
      forall other: seq<u8>, others: seq<Connection> |
        |other| == |stream| && Run(isn, SegmentsOf(isn, other, pieces), window, others, events)
        ensures others[|events|].out + others[|events|].r.ready <= other
      {
        RunAssembles(isn, other, pieces, window, others, events, |events|);
      }
    } else {
      var u := FirstLanding(pieces, events, |events|);
      NearIsWindowed(pieces, events, u);
      var x := Landing(Accept(IdealAt(pieces, events, u), pieces[events[u].k])).value;
      var other := Marked(|stream|, x);
      SameCut(isn, stream, other, pieces);
      var sent, marked := SegmentsOf(isn, stream, pieces), SegmentsOf(isn, other, pieces);
      var others := Replays(isn, sent, marked, window, states, events);
      MarkedFails(isn, other, pieces, window, others, events, u, x);
    }
  }

  // ---- It happens ----

  const LAP := TWO32 + 1  // where the stream stands when rcv_nxt is again what it was at position 1
  const LONG := TWO32 + 2

  /** A stream of 2^32 + 2 bytes, written one by one, of which the last is 1. */
  function Bytes(n: nat): seq<u8> { Marked(n, LAP) }

  function Writes(n: nat): seq<seq<u8>> { seq(n, k => [if k == LAP then 1 else 0]) }

  function BytePieces(n: nat): seq<Piece> { seq(n, k requires 0 <= k < n => Piece(k, 1)) }

  lemma {:induction false} WritesAreBytes(n: nat)
    ensures NoneEmpty(Writes(n)) && Joined(Writes(n)) == Bytes(n) && WritePieces(Writes(n)) == BytePieces(n)
  {
    if n > 0 {
      WritesAreBytes(n - 1);
      assert Writes(n)[..n - 1] == Writes(n - 1);
      assert Cut(n - 1, n) == [Piece(n - 1, 1)];
      assert Bytes(n) == Bytes(n - 1) + [if n - 1 == LAP then 1 else 0];
      assert BytePieces(n) == BytePieces(n - 1) + [Piece(n - 1, 1)];
    }
  }

  function Sent(isn: u32): seq<Segment> { SegmentsOf(isn, Bytes(LONG), BytePieces(LONG)) }

  lemma {:induction false} IdealBefore(pieces: seq<Piece>, events: seq<Event>, e: Event, t: nat)
    requires InRange(events + [e], |pieces|) && InRange(events, |pieces|) && t <= |events|
    ensures IdealAt(pieces, events + [e], t) == IdealAt(pieces, events, t)
  {
    if t > 0 {
      IdealBefore(pieces, events, e, t - 1);
    }
  }

  /** Everything up to here has been in the window and read, and delivery stands at `next`. */
  ghost predicate Standing(isn: u32, window: nat, states: seq<Connection>, events: seq<Event>, next: nat,
                           waiting: seq<Piece>, ready: nat) {
    && Run(isn, Sent(isn), window, states, events) && InRange(events, LONG)
    && Windowed(BytePieces(LONG), events, |events|)
    && IdealAt(BytePieces(LONG), events, |events|).next == next
    && IdealAt(BytePieces(LONG), events, |events|).waiting == waiting && |states[|events|].r.ready| == ready
  }

  lemma WindowGrows(pieces: seq<Piece>, events: seq<Event>, e: Event)
    requires InRange(events, |pieces|) && Windowed(pieces, events, |events|)
    requires e.Arrive? ==> e.k < |pieces|
    requires var i := IdealAt(pieces, events, |events|);
      e.Arrive? ==> Near(i, pieces[e.k]) && !LandsOn(i, pieces[e.k])
    ensures InRange(events + [e], |pieces|) && Windowed(pieces, events + [e], |events| + 1)
    ensures IdealAt(pieces, events + [e], |events| + 1)
      == if e.Arrive? then ReceiveIdeal(IdealAt(pieces, events, |events|), pieces[e.k])
         else IdealAt(pieces, events, |events|)
  {
    assert InRange(events + [e], |pieces|);
    forall u | 0 <= u < |events| + 1 ensures InWindow(pieces, events + [e], u) {
      IdealBefore(pieces, events, e, u);
      if u < |events| {
        assert InWindow(pieces, events, u);
      }
    }
    IdealBefore(pieces, events, e, |events|);
  }

  lemma BytesAreWithin()
    ensures AllPieces(BytePieces(LONG), |Bytes(LONG)|) && Within(BytePieces(LONG), |Bytes(LONG)|)
  {
  }

  /** What has arrived and has not been read. */
  lemma ReadyIs(isn: u32, stream: seq<u8>, out: seq<u8>, i: Ideal, r: Receiver, p: Piece)
    requires Tied(isn, stream, out, i, r) && p.start + p.length <= |stream|
    requires Near(i, p) && !LandsOn(i, p) && FindWrapped(i.waiting, i.next) == None
    ensures |Receive(r, SegmentOf(isn, stream, p)).0.ready| == |r.ready| + ReceiveIdeal(i, p).next - i.next
  {
    ReceiveTied(isn, stream, out, i, r, p);
    var s := Receive(r, SegmentOf(isn, stream, p)).0;
    assert |out + r.ready| == i.next && |out + s.ready| == ReceiveIdeal(i, p).next;
  }

  lemma ArriveStands(isn: u32, window: nat, states: seq<Connection>, events: seq<Event>, next: nat,
                     waiting: seq<Piece>, ready: nat, k: nat)
      returns (states': seq<Connection>, events': seq<Event>)
    requires Standing(isn, window, states, events, next, waiting, ready) && k < LONG
    requires var i := IdealAt(BytePieces(LONG), events, |events|); Near(i, Piece(k, 1)) && !LandsOn(i, Piece(k, 1))
    requires var i := IdealAt(BytePieces(LONG), events, |events|);
      next <= ReceiveIdeal(i, Piece(k, 1)).next <= next + window - ready
    ensures var i := ReceiveIdeal(IdealAt(BytePieces(LONG), events, |events|), Piece(k, 1));
      Standing(isn, window, states', events', i.next, i.waiting, ready + i.next - next)
  {
    var c, i, n := states[|events|], IdealAt(BytePieces(LONG), events, |events|), |events|;
    BytesAreWithin();
    RunAssembles(isn, Bytes(LONG), BytePieces(LONG), window, states, events, n);
    ReadyIs(isn, Bytes(LONG), c.out, i, c.r, Piece(k, 1));
    RunGoesOn(isn, Sent(isn), window, states, events, Arrive(k));
    WindowGrows(BytePieces(LONG), events, Arrive(k));
    states', events' := states + [Apply(c, Arrive(k), Sent(isn))], events + [Arrive(k)];
  }

  lemma ReadStands(isn: u32, window: nat, states: seq<Connection>, events: seq<Event>, next: nat,
                   waiting: seq<Piece>, ready: nat)
      returns (states': seq<Connection>, events': seq<Event>)
    requires Standing(isn, window, states, events, next, waiting, ready)
    ensures Standing(isn, window, states', events', next, waiting, 0)
  {
    var c := states[|events|];
    RunGoesOn(isn, Sent(isn), window, states, events, ReadBytes(ready));
    WindowGrows(BytePieces(LONG), events, ReadBytes(ready));
    states', events' := states + [Apply(c, ReadBytes(ready), Sent(isn))], events + [ReadBytes(ready)];
  }

  /** Byte 1 comes twice before byte 0: one copy stays. */
  lemma CopyStays(isn: u32, window: nat) returns (states: seq<Connection>, events: seq<Event>)
    requires window >= 2
    ensures Standing(isn, window, states, events, 2, [Piece(1, 1)], 0)
  {
    states, events := [Connection(Receiver(isn, [], []), [])], [];
    assert Standing(isn, window, states, events, 0, [], 0);
    states, events := ArriveStands(isn, window, states, events, 0, [], 0, 1);
    states, events := ArriveStands(isn, window, states, events, 0, [Piece(1, 1)], 0, 1);
    FillsTheGap(IdealAt(BytePieces(LONG), events, |events|));
    states, events := ArriveStands(isn, window, states, events, 0, [Piece(1, 1), Piece(1, 1)], 0, 0);
    states, events := ReadStands(isn, window, states, events, 2, [Piece(1, 1)], 2);
  }

  lemma FillsTheGap(i: Ideal)
    requires i.next == 0 && i.waiting == [Piece(1, 1), Piece(1, 1)]
    ensures !LandsOn(i, Piece(0, 1))
    ensures ReceiveIdeal(i, Piece(0, 1)).next == 2 && ReceiveIdeal(i, Piece(0, 1)).waiting == [Piece(1, 1)]
  {
    var j := Accept(i, Piece(0, 1));
    assert FindWrapped(j.waiting, 1) == Some(0) && FindPiece(j.waiting, 1) == Some(0);
    var k := TakeIdeal(j, 0);
    assert k.next == 2 && k.waiting == [Piece(1, 1)];
    assert FindWrapped(k.waiting, 2) == None && FindPiece(k.waiting, 2) == None;
    assert Landing(k) == None && DrainIdeal(k) == k;
    assert Landing(j) == Landing(k) && DrainIdeal(j) == DrainIdeal(k);
  }

  /** The stream goes on for a lap, byte by byte. */
  lemma PassesBy(i: Ideal, next: nat)
    requires 2 <= next < TWO32 && i.next == next && i.waiting == [Piece(1, 1)]
    ensures !LandsOn(i, Piece(next, 1))
    ensures ReceiveIdeal(i, Piece(next, 1)).next == next + 1
    ensures ReceiveIdeal(i, Piece(next, 1)).waiting == [Piece(1, 1)]
  {
    var j := Accept(i, Piece(next, 1));
    assert U32(1) != U32(next + 1);
    assert FindWrapped(j.waiting, next + 1) == None && FindPiece(j.waiting, next + 1) == None;
  }

  lemma {:induction false} GoesOn(isn: u32, window: nat, next: nat)
      returns (states: seq<Connection>, events: seq<Event>)
    requires window >= 2 && 2 <= next <= TWO32
    ensures Standing(isn, window, states, events, next, [Piece(1, 1)], 0)
  {
    if next == 2 {
      states, events := CopyStays(isn, window);
    } else {
      states, events := GoesOn(isn, window, next - 1);
      PassesBy(IdealAt(BytePieces(LONG), events, |events|), next - 1);
      states, events := ArriveStands(isn, window, states, events, next - 1, [Piece(1, 1)], 0, next - 1);
      states, events := ReadStands(isn, window, states, events, next, [Piece(1, 1)], 1);
    }
  }

  /** Byte 2^32 + 1 is next, and the copy of byte 1 has its sequence number. */
  lemma LandsOnCopy(i: Ideal)
    requires i.next == TWO32 && i.waiting == [Piece(1, 1)]
    ensures LandsOn(i, Piece(TWO32, 1)) && Landing(Accept(i, Piece(TWO32, 1))) == Some(LAP)
  {
    assert U32(1) == U32(LAP);
    assert FindWrapped([Piece(1, 1)], LAP) == Some(0);
  }

  /** The last arrival has room, and what it leads to is not the stream. */
  lemma LastArrival(isn: u32, window: nat, states: seq<Connection>, events: seq<Event>)
    requires window >= 2 && Standing(isn, window, states, events, TWO32, [Piece(1, 1)], 0)
    ensures Run(isn, Sent(isn), window, states + [Apply(states[|events|], Arrive(TWO32), Sent(isn))],
                events + [Arrive(TWO32)])
  {
    var c, i, n := states[|events|], IdealAt(BytePieces(LONG), events, |events|), |events|;
    BytesAreWithin();
    RunAssembles(isn, Bytes(LONG), BytePieces(LONG), window, states, events, n);
    TakesCopy(isn, i, c.out, c.r);
    RunGoesOn(isn, Sent(isn), window, states, events, Arrive(TWO32));
  }

  lemma TakesCopy(isn: u32, i: Ideal, out: seq<u8>, r: Receiver)
    requires Tied(isn, Bytes(LONG), out, i, r) && i.next == TWO32 && i.waiting == [Piece(1, 1)] && r.ready == []
    ensures |Receive(r, Sent(isn)[TWO32]).0.ready| == 2
  {
    var d := Deliver(r, Sent(isn)[TWO32].data);
    BytesAreWithin();
    DeliverTied(isn, Bytes(LONG), out, i, r, Piece(TWO32, 1));
    FindsWrapped(isn, Bytes(LONG), i.waiting, LAP);
    LandsOnCopy(i);
    assert FindSegment(d.ofo, d.rcvNxt) == Some(0);
    var t := Take(d, 0);
    assert t.ofo == [] && Drain(t) == t;
  }

  /** It happens, with any room for two bytes: byte 1 arrives twice ahead of byte 0, everything else arrives once and
      in order, every arrival is next or next but one, and 2^32 bytes later the copy is delivered again. */
  lemma StaleIsDeliveredAgain(isn: u32, window: nat)
      returns (writes: seq<seq<u8>>, states: seq<Connection>, events: seq<Event>)
    requires window >= 2
    ensures NoneEmpty(writes) && Run(isn, SentBy(isn, writes), window, states, events)
    ensures |events| > 0 && InRange(events, |WritePieces(writes)|)
    ensures Windowed(WritePieces(writes), events, |events| - 1)
    ensures NearAt(WritePieces(writes), events, |events| - 1) && LandsAt(WritePieces(writes), events, |events| - 1)
    ensures !(states[|events|].out + states[|events|].r.ready <= Joined(writes))
  {
    var before, es := GoesOn(isn, window, TWO32);
    writes := Writes(LONG);
    WritesAreBytes(LONG);
    WritesAreOneStream(isn, writes);
    LastArrival(isn, window, before, es);
    events := es + [Arrive(TWO32)];
    states := before + [Apply(before[|es|], Arrive(TWO32), Sent(isn))];
    LastLands(es);
    BytesAreWithin();
    MarkedFails(isn, Bytes(LONG), BytePieces(LONG), window, states, events, |es|, LAP);
  }

  lemma {:induction false} LastLands(es: seq<Event>)
    requires InRange(es, LONG) && Windowed(BytePieces(LONG), es, |es|)
    requires var i := IdealAt(BytePieces(LONG), es, |es|); i.next == TWO32 && i.waiting == [Piece(1, 1)]
    ensures var events := es + [Arrive(TWO32)];
      && InRange(events, LONG) && Windowed(BytePieces(LONG), events, |es|)
      && NearAt(BytePieces(LONG), events, |es|) && LandsAt(BytePieces(LONG), events, |es|)
      && Landing(Accept(IdealAt(BytePieces(LONG), events, |es|), Piece(TWO32, 1))) == Some(LAP)
  {
    var events := es + [Arrive(TWO32)];
    forall u | 0 <= u < |es| ensures InWindow(BytePieces(LONG), events, u) {
      IdealBefore(BytePieces(LONG), es, Arrive(TWO32), u);
      assert InWindow(BytePieces(LONG), es, u);
    }
    IdealBefore(BytePieces(LONG), es, Arrive(TWO32), |es|);
    LandsOnCopy(IdealAt(BytePieces(LONG), es, |es|));
  }
}
