/** The byte stream from tcp_sock_write through reassembly to tcp_sock_read: segments may arrive in
    any order, any number of times, interleaved with reads. */
module TcpEndToEnd {
  import opened MachineInts
  import opened Options
  import opened TcpSerial
  import opened TcpStream

  // ---- Reassembly in stream positions ----

  /** The receiver seen in stream positions: position of the next byte, pieces waiting, and the
      pieces delivered in order and dropped as too old so far. */
  datatype Ideal = Ideal(next: nat, waiting: seq<Piece>, delivered: seq<Piece>, dropped: seq<Piece>)

  function FindPiece(waiting: seq<Piece>, start: nat): (r: Option<nat>)
    ensures r.Some? ==> r.value < |waiting| && waiting[r.value].start == start
                        && forall k :: 0 <= k < r.value ==> waiting[k].start != start
    ensures r == None ==> forall k :: 0 <= k < |waiting| ==> waiting[k].start != start
  {
    FirstIndex(waiting, (p: Piece) => p.start == start)
  }

  function Accept(i: Ideal, p: Piece): Ideal {
    i.(next := p.start + p.length, delivered := i.delivered + [p])
  }

  function TakeIdeal(i: Ideal, k: nat): Ideal
    requires k < |i.waiting|
  {
    Accept(i, i.waiting[k]).(waiting := Without(i.waiting, k))
  }

  function DrainIdeal(i: Ideal): Ideal
    decreases |i.waiting|
  {
    match FindPiece(i.waiting, i.next)
    case None => i
    case Some(k) => DrainIdeal(TakeIdeal(i, k))
  }

  function ReceiveIdeal(i: Ideal, p: Piece): Ideal {
    if p.start == i.next then DrainIdeal(Accept(i, p))
    else if i.next < p.start then i.(waiting := i.waiting + [p])
    else i.(dropped := i.dropped + [p])
  }

  /** The pieces follow each other without gap or overlap from position 0 to `next`. */
  ghost predicate Consecutive(pieces: seq<Piece>, next: nat) {
    if pieces == [] then next == 0
    else
      var last := pieces[|pieces| - 1];
      last.length > 0 && last.start + last.length == next && Consecutive(pieces[..|pieces| - 1], last.start)
  }

  ghost predicate AllPieces(pieces: seq<Piece>, total: nat) {
    forall k :: 0 <= k < |pieces| ==> 0 < pieces[k].length && pieces[k].start + pieces[k].length <= total
  }

  /** Every piece that arrived is delivered in its place, still waiting, or was dropped behind `next`. */
  ghost predicate Conserved(i: Ideal, arrived: multiset<Piece>, total: nat) {
    && arrived == multiset(i.delivered) + multiset(i.waiting) + multiset(i.dropped)
    && Consecutive(i.delivered, i.next) && AllPieces(i.waiting, total) && i.next <= total
    && (forall k :: 0 <= k < |i.dropped| ==> i.dropped[k].start < i.next)
  }

  lemma WithoutKeeps<T>(s: seq<T>, k: nat)
    requires k < |s|
    ensures multiset(s) == multiset(Without(s, k)) + multiset{s[k]}
  {
    assert s == s[..k] + [s[k]] + s[k + 1..];
    assert Without(s, k) == s[..k] + s[k + 1..];
  }

  lemma AcceptConserves(i: Ideal, p: Piece, arrived: multiset<Piece>, total: nat)
    requires Conserved(i, arrived, total) && p.start == i.next && p.length > 0 && p.start + p.length <= total
    ensures Conserved(Accept(i, p), arrived + multiset{p}, total)
  {
    assert (i.delivered + [p])[..|i.delivered|] == i.delivered;
  }

  lemma TakeConserves(i: Ideal, arrived: multiset<Piece>, total: nat, k: nat)
    requires Conserved(i, arrived, total) && k < |i.waiting| && i.waiting[k].start == i.next
    ensures Conserved(TakeIdeal(i, k), arrived, total)
  {
    var p := i.waiting[k];
    var taken := i.(waiting := Without(i.waiting, k));
    WithoutKeeps(i.waiting, k);
    assert AllPieces(taken.waiting, total);
    assert Conserved(taken, arrived - multiset{p}, total);
    AcceptConserves(taken, p, arrived - multiset{p}, total);
  }

  /** Draining keeps every piece and stops only when nothing that waits is next. */
  lemma {:induction false} DrainConserves(i: Ideal, arrived: multiset<Piece>, total: nat)
    requires Conserved(i, arrived, total)
    ensures Conserved(DrainIdeal(i), arrived, total) && FindPiece(DrainIdeal(i).waiting, DrainIdeal(i).next) == None
    decreases |i.waiting|
  {
    match FindPiece(i.waiting, i.next)
    case None =>
    case Some(k) =>
      TakeConserves(i, arrived, total, k);
      DrainConserves(TakeIdeal(i, k), arrived, total);
  }

  lemma BufferConserves(i: Ideal, p: Piece, arrived: multiset<Piece>, total: nat)
    requires Conserved(i, arrived, total) && FindPiece(i.waiting, i.next) == None && i.next < p.start
    requires 0 < p.length && p.start + p.length <= total
    ensures Conserved(i.(waiting := i.waiting + [p]), arrived + multiset{p}, total)
    ensures FindPiece(i.waiting + [p], i.next) == None
  {
    var waiting := i.waiting + [p];
    assert waiting[|i.waiting|] == p && forall k :: 0 <= k < |i.waiting| ==> waiting[k] == i.waiting[k];
  }

  /** One arrival keeps every piece, and afterwards nothing that waits is next. */
  lemma ReceiveConserves(i: Ideal, p: Piece, arrived: multiset<Piece>, total: nat)
    requires Conserved(i, arrived, total) && FindPiece(i.waiting, i.next) == None
    requires 0 < p.length && p.start + p.length <= total
    ensures Conserved(ReceiveIdeal(i, p), arrived + multiset{p}, total)
    ensures FindPiece(ReceiveIdeal(i, p).waiting, ReceiveIdeal(i, p).next) == None
  {
    if p.start == i.next {
      AcceptConserves(i, p, arrived, total);
      DrainConserves(Accept(i, p), arrived + multiset{p}, total);
    } else if i.next < p.start {
      BufferConserves(i, p, arrived, total);
    }
  }

  // ---- Several writes make one stream ----

  /** The pieces tile the stream from `start` to `end`: each starts where the one before it ends. */
  ghost predicate Tiles(pieces: seq<Piece>, start: nat, end: nat) {
    && (pieces == [] ==> start == end)
    && (pieces != [] ==> pieces[0].start == start && pieces[|pieces| - 1].start + pieces[|pieces| - 1].length == end)
    && (forall k :: 0 <= k < |pieces| ==> 0 < pieces[k].length && pieces[k].start + pieces[k].length <= end)
    && (forall j, k :: 0 <= j < |pieces| && 0 <= k < |pieces| && k == j + 1 ==>
          pieces[k].start == pieces[j].start + pieces[j].length)
  }

  lemma TilesJoin(a: seq<Piece>, b: seq<Piece>, start: nat, middle: nat, end: nat)
    requires Tiles(a, start, middle) && Tiles(b, middle, end) && middle <= end
    ensures Tiles(a + b, start, end)
  {
    var c := a + b;
    forall j, k | 0 <= j < |c| && 0 <= k < |c| && k == j + 1 ensures c[k].start == c[j].start + c[j].length {
      if j < |a| && k >= |a| {
        assert c[j] == a[|a| - 1] && c[k] == b[0];
      }
    }
  }

  /** What consecutive calls of tcp_sock_write put into the stream. */
  function Joined(writes: seq<seq<u8>>): seq<u8> {
    if writes == [] then [] else Joined(writes[..|writes| - 1]) + writes[|writes| - 1]
  }

  /** What one call sends: the result of Sender.WriteAll. */
  function WriteSegments(start: u32, buf: seq<u8>): seq<Segment> {
    CutIsWithin(0, |buf|);
    SegmentsOf(start, buf, Cut(0, |buf|))
  }

  /** What they send, the first one starting at `isn`: Sender.WriteAll for each, from where the one before it left
      snd_nxt. */
  function SentBy(isn: u32, writes: seq<seq<u8>>): seq<Segment> {
    if writes == [] then []
    else
      var before, buf := writes[..|writes| - 1], writes[|writes| - 1];
      SentBy(isn, before) + WriteSegments(U32(isn + |Joined(before)|), buf)
  }

  function WritePieces(writes: seq<seq<u8>>): seq<Piece> {
    if writes == [] then []
    else
      var before, buf := writes[..|writes| - 1], writes[|writes| - 1];
      WritePieces(before) + Cut(|Joined(before)|, |Joined(before)| + |buf|)
  }

  predicate NoneEmpty(writes: seq<seq<u8>>) {
    forall k :: 0 <= k < |writes| ==> |writes[k]| > 0
  }

  lemma CutIsTiling(start: nat, total: nat)
    requires start < total
    ensures Tiles(Cut(start, total), start, total)
  {
    CutTiles(start, total);
  }

  lemma {:induction false} WritesTile(writes: seq<seq<u8>>)
    requires NoneEmpty(writes)
    ensures Tiles(WritePieces(writes), 0, |Joined(writes)|)
  {
    if writes != [] {
      var before, buf := writes[..|writes| - 1], writes[|writes| - 1];
      WritesTile(before);
      var start, end := |Joined(before)|, |Joined(before)| + |buf|;
      CutIsTiling(start, end);
      TilesJoin(WritePieces(before), Cut(start, end), 0, start, end);
      assert |Joined(writes)| == end && WritePieces(writes) == WritePieces(before) + Cut(start, end);
    }
  }

  /** Cutting a buffer in the stream or on its own gives the same pieces, moved. */
  lemma {:induction false} CutMoves(start: nat, total: nat, d: nat)
    requires start <= total
    ensures |Cut(start + d, total + d)| == |Cut(start, total)|
    ensures forall k :: 0 <= k < |Cut(start, total)| ==>
      Cut(start + d, total + d)[k] == Piece(Cut(start, total)[k].start + d, Cut(start, total)[k].length)
    decreases total - start
  {
    if total - start > MAX_PAYLOAD {
      CutMoves(start + MAX_PAYLOAD, total, d);
      var rest, moved := Cut(start + MAX_PAYLOAD, total), Cut(start + MAX_PAYLOAD + d, total + d);
      assert Cut(start, total) == [Piece(start, MAX_PAYLOAD)] + rest;
      assert Cut(start + d, total + d) == [Piece(start + d, MAX_PAYLOAD)] + moved;
    }
  }

  lemma SliceOfSlice(s: seq<u8>, d: nat, n: nat, a: nat, b: nat)
    requires d + n <= |s| && a <= b <= n
    ensures s[d..d + n][a..b] == s[d + a..d + b]
  {
    var x := s[d..d + n];
    var y, z := x[a..b], s[d + a..d + b];
    forall k | 0 <= k < |y| ensures y[k] == z[k] {
      assert y[k] == x[a + k];
    }
  }

  lemma SegmentMoves(isn: u32, stream: seq<u8>, buf: seq<u8>, d: nat, p: Piece)
    requires p.start + p.length <= |buf| && d + |buf| <= |stream| && stream[d..d + |buf|] == buf
    ensures SegmentOf(U32(isn + d), buf, p) == SegmentOf(isn, stream, Piece(p.start + d, p.length))
  {
    U32Add(isn + d, p.start);
    SliceOfSlice(stream, d, |buf|, p.start, p.start + p.length);
  }

  lemma PiecesWithin(pieces: seq<Piece>, total: nat)
    requires Tiles(pieces, 0, total)
    ensures Within(pieces, total) && AllPieces(pieces, total)
  {
  }

  lemma SegmentsGrow(isn: u32, stream: seq<u8>, more: seq<u8>, pieces: seq<Piece>)
    requires Within(pieces, |stream|)
    ensures Within(pieces, |stream + more|)
    ensures SegmentsOf(isn, stream + more, pieces) == SegmentsOf(isn, stream, pieces)
  {
    forall k | 0 <= k < |pieces| ensures SegmentOf(isn, stream + more, pieces[k]) == SegmentOf(isn, stream, pieces[k]) {
      var p := pieces[k];
      assert (stream + more)[p.start..p.start + p.length] == stream[p.start..p.start + p.length];
    }
  }

  lemma SameSegments(isn: u32, s: seq<u8>, ps: seq<Piece>, isn': u32, s': seq<u8>, ps': seq<Piece>)
    requires |ps| == |ps'| && Within(ps, |s|) && Within(ps', |s'|)
    requires forall k :: 0 <= k < |ps| ==> SegmentOf(isn, s, ps[k]) == SegmentOf(isn', s', ps'[k])
    ensures SegmentsOf(isn, s, ps) == SegmentsOf(isn', s', ps')
  {
  }

  /** One piece of a write, in the stream. */
  lemma PieceInStream(isn: u32, head: seq<u8>, buf: seq<u8>, k: nat)
    requires k < |Cut(0, |buf|)|
    ensures |Cut(|head|, |head| + |buf|)| == |Cut(0, |buf|)|
    ensures var p, q := Cut(0, |buf|)[k], Cut(|head|, |head| + |buf|)[k];
      && p.start + p.length <= |buf| && q.start + q.length <= |head + buf|
      && SegmentOf(U32(isn + |head|), buf, p) == SegmentOf(isn, head + buf, q)
  {
    CutIsWithin(0, |buf|);
    CutMoves(0, |buf|, |head|);
    assert (head + buf)[|head|..|head| + |buf|] == buf;
    SegmentMoves(isn, head + buf, buf, |head|, Cut(0, |buf|)[k]);
  }

  /** The segments of one write, in the stream. */
  lemma WriteInStream(isn: u32, head: seq<u8>, buf: seq<u8>)
    ensures Within(Cut(|head|, |head| + |buf|), |head + buf|)
    ensures WriteSegments(U32(isn + |head|), buf) == SegmentsOf(isn, head + buf, Cut(|head|, |head| + |buf|))
  {
    var own, moved, start := Cut(0, |buf|), Cut(|head|, |head| + |buf|), U32(isn + |head|);
    CutIsWithin(0, |buf|);
    CutIsWithin(|head|, |head| + |buf|);
    CutMoves(0, |buf|, |head|);
    forall k | 0 <= k < |own| ensures SegmentOf(start, buf, own[k]) == SegmentOf(isn, head + buf, moved[k]) {
      PieceInStream(isn, head, buf, k);
    }
    SameSegments(start, buf, own, isn, head + buf, moved);
  }

  lemma OneMoreWrite(isn: u32, head: seq<u8>, buf: seq<u8>, pieces: seq<Piece>)
    requires Within(pieces, |head|)
    ensures var more := Cut(|head|, |head| + |buf|);
      && Within(pieces + more, |head + buf|)
      && SegmentsOf(isn, head + buf, pieces + more)
         == SegmentsOf(isn, head, pieces) + WriteSegments(U32(isn + |head|), buf)
  {
    SegmentsGrow(isn, head, buf, pieces);
    WriteInStream(isn, head, buf);
    SegmentsJoin(isn, head + buf, pieces, Cut(|head|, |head| + |buf|));
  }

  /** The last write comes after the ones before it. */
  lemma LastWrite(writes: seq<seq<u8>>)
    requires writes != []
    ensures var before, buf := writes[..|writes| - 1], writes[|writes| - 1];
      && Joined(writes) == Joined(before) + buf
      && WritePieces(writes) == WritePieces(before) + Cut(|Joined(before)|, |Joined(before)| + |buf|)
  {
  }

  lemma LastSent(isn: u32, writes: seq<seq<u8>>)
    requires writes != []
    ensures var before, buf := writes[..|writes| - 1], writes[|writes| - 1];
      SentBy(isn, writes) == SentBy(isn, before) + WriteSegments(U32(isn + |Joined(before)|), buf)
  {
  }

  /** The segments of all writes are the segments of their pieces of one stream. */
  lemma {:induction false} WritesAreOneStream(isn: u32, writes: seq<seq<u8>>)
    requires NoneEmpty(writes)
    ensures Within(WritePieces(writes), |Joined(writes)|)
    ensures SentBy(isn, writes) == SegmentsOf(isn, Joined(writes), WritePieces(writes))
  {
    if writes != [] {
      var before, buf := writes[..|writes| - 1], writes[|writes| - 1];
      WritesAreOneStream(isn, before);
      OneMoreWrite(isn, Joined(before), buf, WritePieces(before));
      LastWrite(writes);
      LastSent(isn, writes);
    }
  }

  lemma SegmentsJoin(isn: u32, stream: seq<u8>, a: seq<Piece>, b: seq<Piece>)
    requires Within(a, |stream|) && Within(b, |stream|)
    ensures Within(a + b, |stream|)
    ensures SegmentsOf(isn, stream, a + b) == SegmentsOf(isn, stream, a) + SegmentsOf(isn, stream, b)
  {
  }

  // ---- The receiver refines it ----

  /** The receiver holds, in wrapped sequence numbers and bytes, what the ideal one holds in
      positions; `out` has already been read. */
  ghost predicate Tied(isn: u32, stream: seq<u8>, out: seq<u8>, i: Ideal, r: Receiver) {
    && i.next <= |stream| && Within(i.waiting, |stream|)
    && r.rcvNxt == U32(isn + i.next)
    && r.ofo == SegmentsOf(isn, stream, i.waiting)
    && out + r.ready == stream[..i.next]
  }

  /** The first waiting piece with the sequence number of `next`: the piece that is next, or one that is a multiple of
      2^32 away from it. */
  function FindWrapped(waiting: seq<Piece>, next: nat): (r: Option<nat>)
    ensures r.Some? ==> r.value < |waiting| && U32(waiting[r.value].start) == U32(next)
                        && forall k :: 0 <= k < r.value ==> U32(waiting[k].start) != U32(next)
    ensures r == None ==> forall k :: 0 <= k < |waiting| ==> U32(waiting[k].start) != U32(next)
  {
    FirstIndex(waiting, (p: Piece) => U32(p.start) == U32(next))
  }

  /** Where `next` lands, while the list is drained, on the sequence number of a piece that belongs elsewhere. */
  function Landing(i: Ideal): Option<nat>
    decreases |i.waiting|
  {
    match FindWrapped(i.waiting, i.next)
    case None => None
    case Some(k) => if i.waiting[k].start != i.next then Some(i.next) else Landing(TakeIdeal(i, k))
  }

  predicate Lands(i: Ideal) { Landing(i).Some? }

  lemma WrappedEqual(isn: u32, x: nat, y: nat)
    ensures U32(isn + x) == U32(isn + y) <==> U32(x) == U32(y)
  {
  }

  lemma FindsWrapped(isn: u32, stream: seq<u8>, waiting: seq<Piece>, next: nat)
    requires Within(waiting, |stream|)
    ensures FindSegment(SegmentsOf(isn, stream, waiting), U32(isn + next)) == FindWrapped(waiting, next)
  {
    var ofo := SegmentsOf(isn, stream, waiting);
    forall k | 0 <= k < |waiting|
      ensures ofo[k].seqNum == U32(isn + next) <==> U32(waiting[k].start) == U32(next)
    {
      WrappedEqual(isn, waiting[k].start, next);
    }
  }

  /** Short of a landing, the search on sequence numbers is the one on positions. */
  lemma FindsInPlace(waiting: seq<Piece>, next: nat)
    ensures FindWrapped(waiting, next) == None ==> FindPiece(waiting, next) == None
    ensures var r := FindWrapped(waiting, next); r.Some? && waiting[r.value].start == next ==>
      FindPiece(waiting, next) == r
  {
  }

  lemma DeliverTied(isn: u32, stream: seq<u8>, out: seq<u8>, i: Ideal, r: Receiver, p: Piece)
    requires Tied(isn, stream, out, i, r) && p.start == i.next && p.start + p.length <= |stream|
    ensures Tied(isn, stream, out, Accept(i, p), Deliver(r, SegmentOf(isn, stream, p).data))
  {
    U32Add(isn + i.next, p.length);
    var data := SegmentOf(isn, stream, p).data;
    assert out + (r.ready + data) == (out + r.ready) + data;
    assert stream[..i.next] + stream[i.next..i.next + p.length] == stream[..i.next + p.length];
  }

  lemma TakeTied(isn: u32, stream: seq<u8>, out: seq<u8>, i: Ideal, r: Receiver, k: nat)
    requires Tied(isn, stream, out, i, r) && k < |i.waiting| && i.waiting[k].start == i.next
    ensures Tied(isn, stream, out, TakeIdeal(i, k), Take(r, k))
  {
    assert SegmentsOf(isn, stream, Without(i.waiting, k)) == Without(r.ofo, k);
    DeliverTied(isn, stream, out, i, r, i.waiting[k]);
  }

  lemma ReadTied(isn: u32, stream: seq<u8>, i: Ideal, c: Connection, size: int, sent: seq<Segment>)
    requires Tied(isn, stream, c.out, i, c.r)
    ensures var d := Apply(c, ReadBytes(size), sent); Tied(isn, stream, d.out, i, d.r)
  {
    var n := if size < |c.r.ready| then size else |c.r.ready|;
    if n > 0 {
      assert c.out + c.r.ready[..n] + c.r.ready[n..] == c.out + c.r.ready;
    }
  }

  /** One turn of the drain loop, short of a landing. */
  lemma SearchTied(isn: u32, stream: seq<u8>, out: seq<u8>, i: Ideal, r: Receiver)
    requires Tied(isn, stream, out, i, r) && !Lands(i)
    ensures FindSegment(r.ofo, r.rcvNxt) == FindPiece(i.waiting, i.next)
    ensures var k := FindPiece(i.waiting, i.next); k.Some? ==> !Lands(TakeIdeal(i, k.value))
  {
    FindsWrapped(isn, stream, i.waiting, i.next);
    FindsInPlace(i.waiting, i.next);
  }

  lemma {:induction false} DrainTied(isn: u32, stream: seq<u8>, out: seq<u8>, i: Ideal, r: Receiver)
    requires Tied(isn, stream, out, i, r) && !Lands(i)
    ensures Tied(isn, stream, out, DrainIdeal(i), Drain(r))
    decreases |i.waiting|
  {
    SearchTied(isn, stream, out, i, r);
    match FindPiece(i.waiting, i.next)
    case None =>
    case Some(k) =>
      TakeTied(isn, stream, out, i, r, k);
      DrainTied(isn, stream, out, TakeIdeal(i, k), Take(r, k));
  }

  /** Draining ends where nothing that waits has the sequence number of what is next. */
  lemma {:induction false} DrainSettles(i: Ideal)
    requires !Lands(i)
    ensures FindWrapped(DrainIdeal(i).waiting, DrainIdeal(i).next) == None
    decreases |i.waiting|
  {
    FindsInPlace(i.waiting, i.next);
    match FindPiece(i.waiting, i.next)
    case None =>
    case Some(k) => DrainSettles(TakeIdeal(i, k));
  }

  /** The piece arrives less than 2^31 away from `next`. */
  predicate Near(i: Ideal, p: Piece) { -TWO31 < p.start - i.next < TWO31 }

  /** Its arrival makes `next` land on a piece that belongs elsewhere. */
  predicate LandsOn(i: Ideal, p: Piece) { p.start == i.next && Lands(Accept(i, p)) }

  /** The 32-bit receiver does on segments what the ideal one does on positions. */
  lemma ReceiveTied(isn: u32, stream: seq<u8>, out: seq<u8>, i: Ideal, r: Receiver, p: Piece)
    requires Tied(isn, stream, out, i, r) && p.start + p.length <= |stream|
    requires Near(i, p) && !LandsOn(i, p) && FindWrapped(i.waiting, i.next) == None
    ensures Tied(isn, stream, out, ReceiveIdeal(i, p), Receive(r, SegmentOf(isn, stream, p)).0)
    ensures FindWrapped(ReceiveIdeal(i, p).waiting, ReceiveIdeal(i, p).next) == None
  {
    SerialOrderIsStreamOrder(isn, p.start, i.next);
    SerialOrderIsStreamOrder(isn, i.next, p.start);
    if p.start == i.next {
      DeliverTied(isn, stream, out, i, r, p);
      DrainTied(isn, stream, out, Accept(i, p), Deliver(r, SegmentOf(isn, stream, p).data));
      DrainSettles(Accept(i, p));
    } else if i.next < p.start {
      WrappedEqual(isn, p.start, i.next);
      assert SegmentsOf(isn, stream, i.waiting + [p]) == r.ofo + [SegmentOf(isn, stream, p)];
    }
  }

  // ---- Runs ----

  datatype Event = Arrive(k: nat) | ReadBytes(size: int)

  /** The receiving socket, and everything the application has read. */
  datatype Connection = Connection(r: Receiver, out: seq<u8>)

  /** Arrivals need room in the ring buffer for what they make deliverable. */
  predicate Enabled(c: Connection, e: Event, sent: seq<Segment>, window: nat) {
    e.Arrive? ==> e.k < |sent| && |sent[e.k].data| > 0 && |Receive(c.r, sent[e.k]).0.ready| <= window
  }

  function Apply(c: Connection, e: Event, sent: seq<Segment>): Connection
    requires e.Arrive? ==> e.k < |sent|
  {
    match e
    case Arrive(k) => c.(r := Receive(c.r, sent[k]).0)
    case ReadBytes(size) =>
      var n := if size < |c.r.ready| then size else |c.r.ready|;
      if n <= 0 then c else Connection(c.r.(ready := c.r.ready[n..]), c.out + c.r.ready[..n])
  }

  predicate StepOk(sent: seq<Segment>, window: nat, states: seq<Connection>, events: seq<Event>, t: nat)
    requires |states| == |events| + 1 && t < |events|
  {
    Enabled(states[t], events[t], sent, window) && states[t + 1] == Apply(states[t], events[t], sent)
  }

  ghost predicate Run(isn: u32, sent: seq<Segment>, window: nat, states: seq<Connection>, events: seq<Event>) {
    && |states| == |events| + 1
    && states[0] == Connection(Receiver(isn, [], []), [])
    && forall t {:trigger StepOk(sent, window, states, events, t)} :: 0 <= t < |events| ==>
         StepOk(sent, window, states, events, t)
  }

  predicate NoneIsEmpty(ofo: seq<Segment>) { forall k :: 0 <= k < |ofo| ==> |ofo[k].data| > 0 }

  lemma {:induction false} DrainBuffersNoEmpty(r: Receiver)
    requires NoneIsEmpty(r.ofo)
    ensures NoneIsEmpty(Drain(r).ofo)
    decreases |r.ofo|
  {
    match FindSegment(r.ofo, r.rcvNxt)
    case None =>
    case Some(k) => DrainBuffersNoEmpty(Take(r, k));
  }

  lemma {:induction false} BuffersNoEmpty(isn: u32, sent: seq<Segment>, window: nat, states: seq<Connection>,
                                          events: seq<Event>, t: nat)
    requires Run(isn, sent, window, states, events) && t < |states|
    ensures NoneIsEmpty(states[t].r.ofo)
  {
    if t > 0 {
      BuffersNoEmpty(isn, sent, window, states, events, t - 1);
      assert StepOk(sent, window, states, events, t - 1);
      var c, e := states[t - 1], events[t - 1];
      if e.Arrive? && sent[e.k].seqNum == c.r.rcvNxt {
        DrainBuffersNoEmpty(Deliver(c.r, sent[e.k].data));
      }
    }
  }

  /** Every arrival of a run meets what Socket.HandleRcvData requires, so the socket goes where the run goes. */
  lemma ArrivalsAreHandled(isn: u32, sent: seq<Segment>, window: nat, states: seq<Connection>, events: seq<Event>,
                           t: nat)
    requires Run(isn, sent, window, states, events) && t < |events| && events[t].Arrive?
    ensures events[t].k < |sent|
    ensures var r, s := states[t].r, sent[events[t].k];
      && |Receive(r, s).0.ready| <= window && states[t + 1].r == Receive(r, s).0
      && (s.seqNum == r.rcvNxt ==> |s.data| > 0 && Deliverable(Deliver(r, s.data)))
  {
    assert StepOk(sent, window, states, events, t);
    BuffersNoEmpty(isn, sent, window, states, events, t);
    NonEmptyIsDeliverable(Deliver(states[t].r, sent[events[t].k].data));
  }

  predicate InRange(events: seq<Event>, n: nat) {
    forall t :: 0 <= t < |events| && events[t].Arrive? ==> events[t].k < n
  }

  /** The receiver in stream positions after the first `t` events. */
  function IdealAt(pieces: seq<Piece>, events: seq<Event>, t: nat): Ideal
    requires t <= |events| && InRange(events, |pieces|)
  {
    if t == 0 then Ideal(0, [], [], [])
    else
      var before := IdealAt(pieces, events, t - 1);
      if events[t - 1].Arrive? then ReceiveIdeal(before, pieces[events[t - 1].k]) else before
  }

  /** Event `t` brings nothing 2^31 or more away from what is expected. */
  predicate NearAt(pieces: seq<Piece>, events: seq<Event>, t: nat)
    requires t < |events| && InRange(events, |pieces|)
  {
    events[t].Arrive? ==> Near(IdealAt(pieces, events, t), pieces[events[t].k])
  }

  /** Event `t` makes delivery land on a segment that belongs elsewhere. */
  predicate LandsAt(pieces: seq<Piece>, events: seq<Event>, t: nat)
    requires t < |events| && InRange(events, |pieces|)
  {
    events[t].Arrive? && LandsOn(IdealAt(pieces, events, t), pieces[events[t].k])
  }

  predicate InWindow(pieces: seq<Piece>, events: seq<Event>, t: nat)
    requires t < |events| && InRange(events, |pieces|)
  {
    NearAt(pieces, events, t) && !LandsAt(pieces, events, t)
  }

  ghost predicate Windowed(pieces: seq<Piece>, events: seq<Event>, n: nat)
    requires InRange(events, |pieces|) && n <= |events|
  {
    forall u {:trigger InWindow(pieces, events, u)} :: 0 <= u < n ==> InWindow(pieces, events, u)
  }

  /** The pieces that have arrived in the first `n` events. */
  ghost function Arrived(pieces: seq<Piece>, events: seq<Event>, n: nat): multiset<Piece>
    requires n <= |events| && InRange(events, |pieces|)
  {
    if n == 0 then multiset{}
    else
      Arrived(pieces, events, n - 1)
      + if events[n - 1].Arrive? then multiset{pieces[events[n - 1].k]} else multiset{}
  }

  /** Everything the run keeps. */
  ghost predicate Assembled(isn: u32, stream: seq<u8>, c: Connection, i: Ideal, arrived: multiset<Piece>) {
    && Tied(isn, stream, c.out, i, c.r) && Conserved(i, arrived, |stream|)
    && FindWrapped(i.waiting, i.next) == None
  }

  lemma ArrivalsInRange(isn: u32, sent: seq<Segment>, window: nat, states: seq<Connection>, events: seq<Event>)
    requires Run(isn, sent, window, states, events)
    ensures InRange(events, |sent|)
  {
    forall u: nat | u < |events| && events[u].Arrive? ensures events[u].k < |sent| {
      assert StepOk(sent, window, states, events, u);
    }
  }

  lemma ArrivalAssembles(isn: u32, stream: seq<u8>, c: Connection, i: Ideal, arrived: multiset<Piece>, p: Piece)
    requires Assembled(isn, stream, c, i, arrived) && 0 < p.length && p.start + p.length <= |stream|
    requires Near(i, p) && !LandsOn(i, p)
    ensures Assembled(isn, stream, c.(r := Receive(c.r, SegmentOf(isn, stream, p)).0), ReceiveIdeal(i, p),
                      arrived + multiset{p})
  {
    FindsInPlace(i.waiting, i.next);
    ReceiveTied(isn, stream, c.out, i, c.r, p);
    ReceiveConserves(i, p, arrived, |stream|);
  }

  lemma StartAssembles(isn: u32, stream: seq<u8>)
    ensures Assembled(isn, stream, Connection(Receiver(isn, [], []), []), Ideal(0, [], [], []), multiset{})
  {
  }

  lemma StepAssembles(isn: u32, stream: seq<u8>, pieces: seq<Piece>, c: Connection, i: Ideal, arrived: multiset<Piece>,
                      e: Event)
    requires AllPieces(pieces, |stream|) && Within(pieces, |stream|) && Assembled(isn, stream, c, i, arrived)
    requires e.Arrive? ==> e.k < |pieces| && Near(i, pieces[e.k]) && !LandsOn(i, pieces[e.k])
    ensures Assembled(isn, stream, Apply(c, e, SegmentsOf(isn, stream, pieces)),
                      if e.Arrive? then ReceiveIdeal(i, pieces[e.k]) else i,
                      arrived + if e.Arrive? then multiset{pieces[e.k]} else multiset{})
  {
    match e
    case Arrive(k) => ArrivalAssembles(isn, stream, c, i, arrived, pieces[k]);
    case ReadBytes(size) =>
      ReadTied(isn, stream, i, c, size, SegmentsOf(isn, stream, pieces));
      assert arrived + multiset{} == arrived;
  }

  lemma {:induction false} RunAssembles(isn: u32, stream: seq<u8>, pieces: seq<Piece>, window: nat,
                                        states: seq<Connection>, events: seq<Event>, t: nat)
    requires AllPieces(pieces, |stream|) && Within(pieces, |stream|) && InRange(events, |pieces|)
    requires Run(isn, SegmentsOf(isn, stream, pieces), window, states, events) && t < |states|
    requires Windowed(pieces, events, t)
    ensures Assembled(isn, stream, states[t], IdealAt(pieces, events, t), Arrived(pieces, events, t))
    decreases t
  {
    if t == 0 {
      StartAssembles(isn, stream);
    } else {
      RunAssembles(isn, stream, pieces, window, states, events, t - 1);
      assert StepOk(SegmentsOf(isn, stream, pieces), window, states, events, t - 1);
      assert InWindow(pieces, events, t - 1);
      StepAssembles(isn, stream, pieces, states[t - 1], IdealAt(pieces, events, t - 1),
                    Arrived(pieces, events, t - 1), events[t - 1]);
    }
  }

  /** Reassembly is safe and maximal, on a stream of any length: whatever arrives, in whatever order, less than 2^31
      from what is expected and without a landing, what the application has read and can read is exactly the stream
      up to rcv_nxt, no buffered segment starts there, and every arrival is delivered in its place, still buffered,
      or was behind rcv_nxt. */
  lemma {:induction false} Reassembly(isn: u32, stream: seq<u8>, pieces: seq<Piece>, window: nat,
                                      states: seq<Connection>, events: seq<Event>, t: nat)
    requires AllPieces(pieces, |stream|) && Within(pieces, |stream|) && InRange(events, |pieces|)
    requires Run(isn, SegmentsOf(isn, stream, pieces), window, states, events) && t < |states|
    requires Windowed(pieces, events, t)
    ensures var i := IdealAt(pieces, events, t);
      && i.next <= |stream| && states[t].out + states[t].r.ready == stream[..i.next]
      && states[t].r.rcvNxt == U32(isn + i.next)
      && Within(i.waiting, |stream|) && states[t].r.ofo == SegmentsOf(isn, stream, i.waiting)
      && Conserved(i, Arrived(pieces, events, t), |stream|)
    ensures FindSegment(states[t].r.ofo, states[t].r.rcvNxt) == None
  {
    RunAssembles(isn, stream, pieces, window, states, events, t);
    FindsWrapped(isn, stream, IdealAt(pieces, events, t).waiting, IdealAt(pieces, events, t).next);
  }

  // ---- Acknowledgements ----

  /** An arrival is acknowledged exactly when it is not buffered ahead of its time, with the number of what is
      expected after it. */
  lemma AckIsExact(isn: u32, stream: seq<u8>, out: seq<u8>, i: Ideal, r: Receiver, p: Piece)
    requires Tied(isn, stream, out, i, r) && p.start + p.length <= |stream|
    requires Near(i, p) && !LandsOn(i, p) && FindWrapped(i.waiting, i.next) == None
    ensures var ack := Receive(r, SegmentOf(isn, stream, p)).1;
      && (ack.Some? <==> p.start <= i.next)
      && (ack.Some? ==> ack.value == U32(isn + ReceiveIdeal(i, p).next))
  {
    SerialOrderIsStreamOrder(isn, p.start, i.next);
    SerialOrderIsStreamOrder(isn, i.next, p.start);
    ReceiveTied(isn, stream, out, i, r, p);
  }

  /** What event `t` is answered with. */
  function AckOf(sent: seq<Segment>, states: seq<Connection>, events: seq<Event>, t: nat): Option<u32>
    requires t < |events| < |states| && (events[t].Arrive? ==> events[t].k < |sent|)
  {
    match events[t]
    case Arrive(k) => Receive(states[t].r, sent[k]).1
    case ReadBytes(_) => None
  }

  lemma DeliveredStands(isn: u32, stream: seq<u8>, pieces: seq<Piece>, window: nat, states: seq<Connection>,
                        events: seq<Event>, t: nat)
    requires AllPieces(pieces, |stream|) && Within(pieces, |stream|) && InRange(events, |pieces|)
    requires Run(isn, SegmentsOf(isn, stream, pieces), window, states, events) && t < |states|
    requires Windowed(pieces, events, t)
    ensures |states[t].out + states[t].r.ready| == IdealAt(pieces, events, t).next
  {
    RunAssembles(isn, stream, pieces, window, states, events, t);
  }

  lemma AheadStands(pieces: seq<Piece>, events: seq<Event>, t: nat)
    requires t < |events| && InRange(events, |pieces|) && events[t].Arrive?
    ensures pieces[events[t].k].start > IdealAt(pieces, events, t).next ==>
      IdealAt(pieces, events, t + 1).next == IdealAt(pieces, events, t).next
  {
  }

  lemma {:induction false} AckAt(isn: u32, stream: seq<u8>, pieces: seq<Piece>, window: nat, states: seq<Connection>,
                                 events: seq<Event>, t: nat)
    requires AllPieces(pieces, |stream|) && Within(pieces, |stream|) && InRange(events, |pieces|)
    requires Run(isn, SegmentsOf(isn, stream, pieces), window, states, events) && t < |events| && events[t].Arrive?
    requires Windowed(pieces, events, t + 1)
    ensures var ack := AckOf(SegmentsOf(isn, stream, pieces), states, events, t);
      && (ack.Some? <==> pieces[events[t].k].start <= IdealAt(pieces, events, t).next)
      && (ack.Some? ==> ack.value == U32(isn + IdealAt(pieces, events, t + 1).next))
  {
    assert InWindow(pieces, events, t) && StepOk(SegmentsOf(isn, stream, pieces), window, states, events, t);
    RunAssembles(isn, stream, pieces, window, states, events, t);
    AckIsExact(isn, stream, states[t].out, IdealAt(pieces, events, t), states[t].r, pieces[events[t].k]);
  }

  /** Over runs: an arrival that delivers bytes or lies behind what is expected is acknowledged, one ahead of it is
      not, and the number acknowledges exactly the bytes delivered so far. */
  lemma ArrivalsAreAcknowledged(isn: u32, stream: seq<u8>, pieces: seq<Piece>, window: nat,
                                states: seq<Connection>, events: seq<Event>, t: nat)
    requires AllPieces(pieces, |stream|) && Within(pieces, |stream|) && InRange(events, |pieces|)
    requires Run(isn, SegmentsOf(isn, stream, pieces), window, states, events) && t < |events| && events[t].Arrive?
    requires Windowed(pieces, events, t + 1)
    ensures var ack := AckOf(SegmentsOf(isn, stream, pieces), states, events, t);
      var c, d := states[t], states[t + 1];
      && (ack.Some? <==> pieces[events[t].k].start <= IdealAt(pieces, events, t).next)
      && (|d.out + d.r.ready| > |c.out + c.r.ready| ==> ack.Some?)
      && (ack.Some? ==> ack.value == U32(isn + |d.out + d.r.ready|))
  {
    AckAt(isn, stream, pieces, window, states, events, t);
    DeliveredStands(isn, stream, pieces, window, states, events, t);
    DeliveredStands(isn, stream, pieces, window, states, events, t + 1);
    AheadStands(pieces, events, t);
  }

  // ---- End to end ----

  lemma {:induction false} DeliveredBefore(pieces: seq<Piece>, next: nat, k: nat)
    requires Consecutive(pieces, next) && k < |pieces|
    ensures pieces[k].start < next && pieces[k].start + pieces[k].length <= next
  {
    var last := |pieces| - 1;
    if k < last {
      DeliveredBefore(pieces[..last], pieces[last].start, k);
    }
  }

  lemma {:induction false} ArrivedOnce(pieces: seq<Piece>, events: seq<Event>, n: nat, t: nat)
    requires InRange(events, |pieces|)
    requires t < n <= |events| && events[t].Arrive?
    ensures pieces[events[t].k] in Arrived(pieces, events, n)
  {
    if t < n - 1 {
      ArrivedOnce(pieces, events, n - 1, t);
    }
  }

  lemma {:induction false} ArrivedArePieces(pieces: seq<Piece>, events: seq<Event>, n: nat, p: Piece)
    requires InRange(events, |pieces|)
    requires n <= |events| && p in Arrived(pieces, events, n)
    ensures p in pieces
  {
    if p in Arrived(pieces, events, n - 1) {
      ArrivedArePieces(pieces, events, n - 1, p);
    }
  }

  /** Short of the end of the stream some piece starts where delivery stands. */
  lemma NextPieceExists(pieces: seq<Piece>, total: nat, i: Ideal, arrived: multiset<Piece>) returns (k: nat)
    requires Tiles(pieces, 0, total) && Conserved(i, arrived, total) && i.next < total
    requires forall p :: p in arrived ==> p in pieces
    ensures k < |pieces| && pieces[k].start == i.next
  {
    if i.delivered == [] {
      k := 0;
    } else {
      var last := i.delivered[|i.delivered| - 1];
      assert last in multiset(i.delivered) && last in arrived;
      var j :| 0 <= j < |pieces| && pieces[j] == last;
      k := j + 1;
    }
  }

  /** A piece that starts at `next` has not arrived when nothing that waits is next. */
  lemma NotConserved(i: Ideal, arrived: multiset<Piece>, total: nat, p: Piece)
    requires Conserved(i, arrived, total) && FindPiece(i.waiting, i.next) == None && p.start == i.next
    ensures p !in arrived
  {
    forall k | 0 <= k < |i.delivered| ensures i.delivered[k] != p {
      DeliveredBefore(i.delivered, i.next, k);
    }
  }

  /** So while delivery is short of the end, some piece has not arrived. */
  lemma NextPieceIsMissing(pieces: seq<Piece>, total: nat, i: Ideal, arrived: multiset<Piece>) returns (k: nat)
    requires Tiles(pieces, 0, total) && Conserved(i, arrived, total) && i.next < total
    requires FindPiece(i.waiting, i.next) == None && forall p :: p in arrived ==> p in pieces
    ensures k < |pieces| && pieces[k] !in arrived
  {
    k := NextPieceExists(pieces, total, i, arrived);
    NotConserved(i, arrived, total, pieces[k]);
  }

  /** Nothing is missing once every piece has arrived. */
  lemma {:induction false} NothingMissing(pieces: seq<Piece>, total: nat, events: seq<Event>)
    requires Tiles(pieces, 0, total) && InRange(events, |pieces|)
    requires forall k :: 0 <= k < |pieces| ==> Arrive(k) in events
    requires var i := IdealAt(pieces, events, |events|);
      Conserved(i, Arrived(pieces, events, |events|), total) && FindPiece(i.waiting, i.next) == None
    ensures IdealAt(pieces, events, |events|).next >= total
  {
    var n := |events|;
    var i, arrived := IdealAt(pieces, events, n), Arrived(pieces, events, n);
    if i.next < total {
      forall p | p in arrived ensures p in pieces {
        ArrivedArePieces(pieces, events, n, p);
      }
      var k := NextPieceIsMissing(pieces, total, i, arrived);
      assert Arrive(k) in events;
      var t :| 0 <= t < n && events[t] == Arrive(k);
      ArrivedOnce(pieces, events, n, t);
    }
  }

  lemma AllArrived(isn: u32, stream: seq<u8>, pieces: seq<Piece>, window: nat,
                   states: seq<Connection>, events: seq<Event>)
    requires Tiles(pieces, 0, |stream|) && Within(pieces, |stream|) && InRange(events, |pieces|)
    requires Run(isn, SegmentsOf(isn, stream, pieces), window, states, events)
    requires Windowed(pieces, events, |events|)
    requires forall k :: 0 <= k < |pieces| ==> Arrive(k) in events
    ensures states[|events|].out + states[|events|].r.ready == stream
    ensures states[|events|].r.rcvNxt == U32(isn + |stream|)
  {
    RunAssembles(isn, stream, pieces, window, states, events, |events|);
    FindsInPlace(IdealAt(pieces, events, |events|).waiting, IdealAt(pieces, events, |events|).next);
    NothingMissing(pieces, |stream|, events);
    assert stream[..|stream|] == stream;
  }

  /** Stream identity: any number of writes, a stream of any length whose sequence numbers wrap as often as they
      like, segments in any order within the window and with duplicates, interleaved with reads. Once every segment
      has arrived at least once, what has been read and can be read is exactly what was written. */
  lemma StreamIdentity(isn: u32, writes: seq<seq<u8>>, window: nat, states: seq<Connection>, events: seq<Event>)
    requires NoneEmpty(writes) && InRange(events, |WritePieces(writes)|)
    requires Run(isn, SentBy(isn, writes), window, states, events)
    requires Windowed(WritePieces(writes), events, |events|)
    requires forall k :: 0 <= k < |SentBy(isn, writes)| ==> Arrive(k) in events
    ensures states[|events|].out + states[|events|].r.ready == Joined(writes)
    ensures states[|events|].r.rcvNxt == U32(isn + |Joined(writes)|)
    ensures states[|events|].r.ready == [] ==> states[|events|].out == Joined(writes)
  {
    WritesTile(writes);
    WritesAreOneStream(isn, writes);
    AllArrived(isn, Joined(writes), WritePieces(writes), window, states, events);
    var c := states[|events|];
    assert c.r.ready == [] ==> c.out + c.r.ready == c.out;
  }

  /** Everything is within the window when the stream is shorter than 2^31 bytes. */
  lemma {:induction false} ShortStreamIsInWindow(pieces: seq<Piece>, total: nat, events: seq<Event>, t: nat)
    requires AllPieces(pieces, total) && total < TWO31 && InRange(events, |pieces|) && t <= |events|
    ensures var i := IdealAt(pieces, events, t); i.next <= total && AllPieces(i.waiting, total)
    ensures t < |events| ==> InWindow(pieces, events, t)
  {
    if t > 0 {
      ShortStreamIsInWindow(pieces, total, events, t - 1);
      if events[t - 1].Arrive? {
        ReceiveStaysWithin(IdealAt(pieces, events, t - 1), pieces[events[t - 1].k], total);
      }
    }
    if t < |events| && events[t].Arrive? && pieces[events[t].k].start == IdealAt(pieces, events, t).next {
      ShortNeverLands(Accept(IdealAt(pieces, events, t), pieces[events[t].k]), total);
    }
  }

  lemma {:induction false} ShortNeverLands(i: Ideal, total: nat)
    requires i.next <= total < TWO31 && AllPieces(i.waiting, total)
    ensures !Lands(i)
    decreases |i.waiting|
  {
    match FindWrapped(i.waiting, i.next)
    case None =>
    case Some(k) =>
      SmallInt(i.next);
      SmallInt(i.waiting[k].start);
      ShortNeverLands(TakeIdeal(i, k), total);
  }

  lemma ReceiveStaysWithin(i: Ideal, p: Piece, total: nat)
    requires i.next <= total && AllPieces(i.waiting, total) && 0 < p.length && p.start + p.length <= total
    ensures var j := ReceiveIdeal(i, p); j.next <= total && AllPieces(j.waiting, total)
  {
    if p.start == i.next {
      DrainStaysWithin(Accept(i, p), total);
    }
  }

  lemma {:induction false} DrainStaysWithin(i: Ideal, total: nat)
    requires i.next <= total && AllPieces(i.waiting, total)
    ensures var j := DrainIdeal(i); j.next <= total && AllPieces(j.waiting, total)
    decreases |i.waiting|
  {
    match FindPiece(i.waiting, i.next)
    case None =>
    case Some(k) => DrainStaysWithin(TakeIdeal(i, k), total);
  }

  /** So streams shorter than 2^31 bytes need no condition on arrivals. */
  lemma ShortStreamIdentity(isn: u32, writes: seq<seq<u8>>, window: nat, states: seq<Connection>, events: seq<Event>)
    requires NoneEmpty(writes) && |Joined(writes)| < TWO31
    requires Run(isn, SentBy(isn, writes), window, states, events)
    requires forall k :: 0 <= k < |SentBy(isn, writes)| ==> Arrive(k) in events
    ensures states[|events|].out + states[|events|].r.ready == Joined(writes)
    ensures states[|events|].r.rcvNxt == U32(isn + |Joined(writes)|)
  {
    WritesTile(writes);
    WritesAreOneStream(isn, writes);
    PiecesWithin(WritePieces(writes), |Joined(writes)|);
    ArrivalsInRange(isn, SentBy(isn, writes), window, states, events);
    forall u | 0 <= u < |events| ensures InWindow(WritePieces(writes), events, u) {
      ShortStreamIsInWindow(WritePieces(writes), |Joined(writes)|, events, u);
    }
    StreamIdentity(isn, writes, window, states, events);
  }
}
