/** Passive connections: a listening socket, its children and its two queues
    (12-tcp_stack/tcp_in.c, tcp_sock.c), and the wait structure of accept (include/synch_wait.h). */
module AcceptQueue {
  import opened MachineInts
  import opened TcpSerial

  const TCP_SYN := 0x02
  const TCP_RST := 0x04
  const TCP_ACK := 0x10
  const TCP_DEFAULT_WINDOW := 65535

  datatype TcpState = CLOSED | SYN_RECV | ESTABLISHED

  datatype Endpoint = Endpoint(ip: u32, port: u16)

  /** The fields of a received segment that connection set-up reads. */
  datatype Segment = Segment(src: Endpoint, dst: Endpoint, seqNum: u32, seqEnd: u32, ack: u32, flags: u8)

  /** A segment without data that tcp_send_control_packet sends. */
  datatype Control = Control(src: Endpoint, dst: Endpoint, seqNum: u32, ack: u32, flags: u8)

  datatype Child = Child(state: TcpState, local: Endpoint, peer: Endpoint,
                         iss: u32, sndNxt: u32, sndUna: u32, rcvNxt: u32, rcvWnd: u16)

  datatype Wait = Wait(notified: bool, dead: bool, sleep: bool)

  /** Children are named by the order of their creation. */
  datatype Listener = Listener(children: seq<Child>, listening: seq<nat>, queue: seq<nat>,
                               acceptBacklog: int, backlog: int, wait: Wait)

  // ---- The wait structure ----

  /** sleep_on up to pthread_cond_wait; the flag says whether the caller blocks there. */
  function BeginSleep(w: Wait): (Wait, bool) {
    if w.dead then (w, false)
    else if w.notified then (Wait(false, false, false), false)
    else (w.(sleep := true), true)
  }

  /** sleep_on after pthread_cond_wait. */
  function EndSleep(w: Wait): Wait { w.(notified := false, sleep := false) }

  /** wake_up; the flag says whether it signals. */
  function WakeUp(w: Wait): (Wait, bool) {
    if w.dead || w.notified then (w, false) else (w.(notified := true), w.sleep)
  }

  /** wait_exit; the flag says whether it broadcasts. */
  function WaitExit(w: Wait): (Wait, bool) {
    if w.dead then (w, false) else (w.(dead := true), w.sleep)
  }

  // ---- Segments ----

  /** is_tcp_seq_valid. */
  predicate SeqValid(rcvNxt: u32, rcvWnd: u16, seqNum: u32, seqEnd: u32) {
    LessThan32(seqNum, U32(rcvNxt + if rcvWnd > 1 then rcvWnd else 1)) && LessOrEqual32(rcvNxt, seqEnd)
  }

  lemma WrapLater(x: nat, w: nat)
    ensures U32(U32(x) + w) == U32(x + w)
  {
  }

  /** The check is the one on stream positions, across wrap-around, for segments less than 2^31 - 65535
      away from the window. */
  lemma SeqValidIsWindowTest(isn: u32, rcv: nat, first: nat, end: nat, rcvWnd: u16)
    requires -TWO31 + TWO16 < first - rcv < TWO31 && -TWO31 < rcv - end < TWO31
    ensures SeqValid(U32(isn + rcv), rcvWnd, U32(isn + first), U32(isn + end))
       <==> first < rcv + (if rcvWnd > 1 then rcvWnd else 1) && rcv <= end
  {
    var w: nat := if rcvWnd > 1 then rcvWnd else 1;
    SerialOrderIsStreamOrder(isn, first, rcv + w);
    SerialOrderIsStreamOrder(isn, rcv, end);
    WrapLater(isn + rcv, w);
    assert isn + rcv + w == isn + (rcv + w);
  }

  /** The list without the first entry for `c`. */
  function Remove(s: seq<nat>, c: nat): (r: seq<nat>)
    ensures multiset(r) == multiset(s) - multiset{c}
  {
    if s == [] then []
    else if s[0] == c then
      assert s == [s[0]] + s[1..];
      s[1..]
    else
      assert s == [s[0]] + s[1..];
      [s[0]] + Remove(s[1..], c)
  }

  /** tcp_process in LISTEN: a SYN makes a child, whose SYN and ACK take one sequence number. */
  function OnListen(l: Listener, cb: Segment, iss: u32): Listener {
    if cb.flags != TCP_SYN then l
    else
      var child := Child(SYN_RECV, cb.dst, cb.src, iss, U32(iss + 1), 0, cb.seqEnd, TCP_DEFAULT_WINDOW);
      l.(children := l.children + [child], listening := l.listening + [|l.children|])
  }

  datatype Outcome = Ignored | Refused | Completed

  /** tcp_process in SYN_RECV up to the accept queue: the last segment of the handshake either completes the
      connection or, with the queue full, closes it. */
  function OnSynRecv(l: Listener, c: nat, cb: Segment): (Listener, Outcome)
    requires c < |l.children|
  {
    var child := l.children[c];
    if cb.flags != TCP_ACK || !SeqValid(child.rcvNxt, child.rcvWnd, cb.seqNum, cb.seqEnd) then (l, Ignored)
    else
      var next := child.(rcvNxt := cb.seqEnd, sndUna := cb.ack);
      if l.acceptBacklog >= l.backlog then
        (l.(children := l.children[c := next.(state := CLOSED)], listening := Remove(l.listening, c)), Refused)
      else (l.(children := l.children[c := next.(state := ESTABLISHED)]), Completed)
  }

  /** tcp_sock_accept_enqueue. */
  function Enqueue(l: Listener, c: nat): Listener {
    l.(listening := Remove(l.listening, c), queue := l.queue + [c], acceptBacklog := l.acceptBacklog + 1)
  }

  /** The end of tcp_sock_accept, which does not look at the queue again: on an empty one the list head is unlinked
      from itself, and only the counter changes. */
  function Dequeue(l: Listener): Listener
    requires l.queue != [] ==> l.queue[0] < |l.children|
  {
    if l.queue == [] then l.(acceptBacklog := l.acceptBacklog - 1)
    else
      var c := l.queue[0];
      l.(children := l.children[c := l.children[c].(state := ESTABLISHED)], queue := l.queue[1..],
         acceptBacklog := l.acceptBacklog - 1)
  }
}

/** The same as objects whose fields the C functions change. */
module AcceptObjects {
  import opened MachineInts
  import opened Options
  import opened AcceptQueue

  /** struct synch_wait; each method is what runs under the lock without releasing it. */
  class SynchWait {
    var notified: bool
    var dead: bool
    var sleep: bool

    function View(): (w: Wait)
      reads this
    {
      Wait(notified, dead, sleep)
    }

    constructor ()
      ensures View() == Wait(false, false, false)
    {
      notified, dead, sleep := false, false, false;
    }

    method StartSleep() returns (blocks: bool)
      modifies this
      ensures (View(), blocks) == BeginSleep(old(View()))
    {
      if dead {
        return false;
      }
      sleep := true;
      if !notified {
        return true;
      }
      FinishSleep();
      return false;
    }

    method FinishSleep()
      modifies this
      ensures View() == EndSleep(old(View()))
    {
      notified := false;
      sleep := false;
    }

    method Notify() returns (signals: bool)
      modifies this
      ensures (View(), signals) == WakeUp(old(View()))
    {
      signals := false;
      if !dead && !notified {
        notified := true;
        signals := sleep;
      }
    }

    method Exit() returns (broadcasts: bool)
      modifies this
      ensures (View(), broadcasts) == WaitExit(old(View()))
    {
      broadcasts := false;
      if !dead {
        dead := true;
        broadcasts := sleep;
      }
    }
  }

  class ListenSock {
    var children: seq<Child>
    var listening: seq<nat>
    var queue: seq<nat>
    var acceptBacklog: int
    const backlog: int
    const waitAccept: SynchWait

    function View(): (l: Listener)
      reads this, waitAccept
    {
      Listener(children, listening, queue, acceptBacklog, backlog, waitAccept.View())
    }

    /** alloc_tcp_sock and tcp_sock_listen. */
    constructor (backlog: int)
      ensures fresh(waitAccept) && View() == Listener([], [], [], 0, backlog, Wait(false, false, false))
    {
      children, listening, queue, acceptBacklog := [], [], [], 0;
      this.backlog := backlog;
      waitAccept := new SynchWait();
    }

    method ProcessListen(cb: Segment, iss: u32) returns (reply: Option<Control>)
      modifies this
      ensures View() == OnListen(old(View()), cb, iss)
      ensures reply == if cb.flags == 0x02 then Some(Control(cb.dst, cb.src, iss, cb.seqEnd, 0x12)) else None
    {
      reply := None;
      if cb.flags == TCP_SYN {
        var child := Child(CLOSED, cb.dst, cb.src, iss, iss, 0, cb.seqEnd, TCP_DEFAULT_WINDOW);
        child := child.(state := SYN_RECV);
        listening := listening + [|children|];
        reply := Some(Control(child.local, child.peer, child.sndNxt, child.rcvNxt, TCP_SYN + TCP_ACK));
        child := child.(sndNxt := U32(child.sndNxt + 1));
        children := children + [child];
      }
    }

    method ProcessSynRecv(c: nat, cb: Segment) returns (out: Outcome, reply: Option<Control>)
      requires c < |children|
      modifies this
      ensures (View(), out) == OnSynRecv(old(View()), c, cb)
      ensures var child := old(children)[c];
        reply == if out == Refused then Some(Control(child.local, child.peer, child.sndNxt, cb.seqEnd, 0x04)) else None
    {
      reply := None;
      var child := children[c];
      if cb.flags != TCP_ACK || !SeqValid(child.rcvNxt, child.rcvWnd, cb.seqNum, cb.seqEnd) {
        return Ignored, None;
      }
      child := child.(rcvNxt := cb.seqEnd);
      child := child.(sndUna := cb.ack);
      if AcceptQueueFull() {
        child := child.(state := CLOSED);
        reply := Some(Control(child.local, child.peer, child.sndNxt, child.rcvNxt, TCP_RST));
        listening := Remove(listening, c);
        out := Refused;
      } else {
        child := child.(state := ESTABLISHED);
        out := Completed;
      }
      children := children[c := child];
    }

    function AcceptQueueFull(): bool
      reads this
    {
      acceptBacklog >= backlog
    }

    method AcceptEnqueue(c: nat)
      modifies this
      ensures View() == Enqueue(old(View()), c)
    {
      listening := Remove(listening, c);
      queue := queue + [c];
      acceptBacklog := acceptBacklog + 1;
    }

    /** tcp_sock_accept after its loop. */
    method AcceptDequeue() returns (c: Option<nat>)
      requires queue != [] ==> queue[0] < |children|
      modifies this
      ensures c == if old(queue) == [] then None else Some(old(queue)[0])
      ensures View() == Dequeue(old(View()))
    {
      c := None;
      if queue != [] {
        c := Some(queue[0]);
        queue := queue[1..];
        children := children[c.value := children[c.value].(state := ESTABLISHED)];
      }
      acceptBacklog := acceptBacklog - 1;
    }
  }
}
