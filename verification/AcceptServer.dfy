/** The steps of AcceptTheorems run on the objects of AcceptQueue: a listening socket, its wait structure, the
    packet thread and any number of accepting threads. Whatever the order of the steps, the objects stay in a
    state that some run of the state machine reaches, so everything proved of runs holds of them. */
module AcceptServer {
  import opened MachineInts
  import opened Options
  import opened AcceptQueue
  import opened AcceptObjects
  import opened AcceptTheorems

  /** What every state of every run guarantees: until a thread pops an empty queue, the counter is the length of the
      queue and within the backlog, and each child is on one list in the right state; a single accepting thread never
      pops an empty queue and never waits unheard. */
  ghost predicate Guaranteed(w: World) {
    && (!w.broken ==> BacklogOk(w)) && (forall c: nat :: Placed(w, c))
    && (|w.acceptors| <= 1 ==> !w.broken && !Lost(w))
    && (w.acceptors == [Blocked(false)] && w.l.queue != [] ==> w.packet == Waking)
  }

  lemma RunsGuarantee(states: seq<World>, events: seq<Event>, threads: nat, k: nat)
    requires Run(states, events, threads) && k < |states|
    ensures Guaranteed(states[k]) && |states[k].acceptors| == threads
  {
    QueueIsSound(states, events, threads, k);
    ThreadsStay(states, events, threads, k);
    if threads <= 1 {
      NeverLostIffOneAcceptor(threads);
    }
    if states[k].acceptors == [Blocked(false)] && states[k].l.queue != [] {
      NoLostWakeUp(states, events, k);
    }
  }

  class Server {
    const sock: ListenSock
    const acceptors: array<Acceptor>
    var packet: PacketThread
    var accepted: seq<nat>
    var refused: seq<nat>
    var broken: bool
    ghost var states: seq<World>
    ghost var events: seq<Event>

    function View(): World
      reads this, sock, sock.waitAccept, acceptors
    {
      World(sock.View(), packet, acceptors[..], accepted, refused, broken)
    }

    /** The steps so far are a run, and it ends here. */
    ghost predicate Valid()
      reads this, sock, sock.waitAccept, acceptors
    {
      Run(states, events, acceptors.Length) && states[|events|] == View()
    }

    /** tcp_sock_listen. */
    constructor (backlog: int, threads: nat)
      ensures Valid() && events == [] && Guaranteed(View())
      ensures acceptors.Length == threads && sock.backlog == backlog
      ensures fresh(sock) && fresh(sock.waitAccept) && fresh(acceptors)
    {
      sock := new ListenSock(backlog);
      acceptors := new Acceptor[threads](_ => Outside);
      packet, accepted, refused, broken := Idle, [], [], false;
      new;
      assert acceptors[..] == seq(threads, _ => Outside);
      states, events := [View()], [];
      RunsGuarantee(states, events, threads, 0);
    }

    /** The step just made is recorded. */
    ghost method Record(e: Event, before: World)
      requires Run(states, events, acceptors.Length) && states[|events|] == before
      requires Enabled(before, e) && View() == Apply(before, e)
      modifies this`states, this`events
      ensures Valid() && events == old(events) + [e] && Guaranteed(View())
      ensures Prefix(before.accepted + before.l.queue, accepted + sock.queue)
    {
      RunExtends(states, events, e, acceptors.Length);
      StepKeepsOrder(before, e);
      states, events := states + [View()], events + [e];
      RunsGuarantee(states, events, acceptors.Length, |events|);
    }

    /** tcp_process for the listening socket: a SYN makes one child, which waits for the end of its handshake. */
    method ReceiveSyn(cb: Segment, iss: u32) returns (reply: Option<Control>)
      requires Valid() && !broken && packet == Idle
      modifies this, sock
      ensures Valid() && events == old(events) + [Syn(cb, iss)] && Guaranteed(View())
      ensures |sock.children| == |old(sock.children)| + if cb.flags == TCP_SYN then 1 else 0
      ensures cb.flags == TCP_SYN ==>
        sock.children[..|old(sock.children)|] == old(sock.children)
        && sock.children[|old(sock.children)|]
          == Child(SYN_RECV, cb.dst, cb.src, iss, U32(iss + 1), 0, cb.seqEnd, 65535)
      ensures reply == if cb.flags == TCP_SYN then Some(Control(cb.dst, cb.src, iss, cb.seqEnd, 0x12)) else None
      ensures sock.queue == old(sock.queue) && accepted == old(accepted)
    {
      ghost var before := View();
      reply := sock.ProcessListen(cb, iss);
      Record(Syn(cb, iss), before);
    }

    /** tcp_process for a child in SYN_RECV, up to the accept queue: the connection is completed exactly by an
        acceptable ACK while the queue has room, and refused exactly by one that finds it full. */
    method ReceiveAck(c: nat, cb: Segment) returns (out: Outcome, reply: Option<Control>)
      requires Valid() && !broken && packet == Idle && c < |sock.children| && sock.children[c].state == SYN_RECV
      modifies this, sock
      ensures Valid() && events == old(events) + [Ack(c, cb)] && Guaranteed(View())
      ensures var child := old(sock.children)[c];
        out == Ignored <==> cb.flags != TCP_ACK || !SeqValid(child.rcvNxt, child.rcvWnd, cb.seqNum, cb.seqEnd)
      ensures out == Completed ==> |old(sock.queue)| < sock.backlog && packet == Pushing(c)
      ensures out == Refused ==> |old(sock.queue)| >= sock.backlog && c in refused
      ensures var child := old(sock.children)[c];
        reply == if out == Refused then Some(Control(child.local, child.peer, child.sndNxt, cb.seqEnd, 0x04)) else None
      ensures out != Ignored ==>
        |sock.children| == |old(sock.children)|
        && sock.children[c] == old(sock.children)[c].(rcvNxt := cb.seqEnd, sndUna := cb.ack,
                                                      state := if out == Completed then ESTABLISHED else CLOSED)
      ensures sock.queue == old(sock.queue)
    {
      ghost var before := View();
      QueueIsSound(states, events, acceptors.Length, |events|);
      out, reply := sock.ProcessSynRecv(c, cb);
      if out == Completed {
        packet := Pushing(c);
      } else if out == Refused {
        refused := refused + [c];
      }
      Record(Ack(c, cb), before);
    }

    /** tcp_sock_accept_enqueue for the connection just completed: a wake-up is owed from here on. */
    method PushChild()
      requires Valid() && !broken && packet.Pushing?
      modifies this, sock
      ensures Valid() && events == old(events) + [Push] && Guaranteed(View())
      ensures sock.queue == old(sock.queue) + [old(packet).child] && packet == Waking
    {
      ghost var before := View();
      sock.AcceptEnqueue(packet.child);
      packet := Waking;
      Record(Push, before);
    }

    /** wake_up: a single thread that waits, for a queue that is not empty, is freed. */
    method WakeAcceptor(who: nat)
      requires Valid() && !broken && packet.Waking? && Enabled(View(), Wake(who))
      modifies this, sock.waitAccept, acceptors
      ensures Valid() && events == old(events) + [Wake(who)] && Guaranteed(View())
      ensures acceptors.Length == 1 && old(acceptors[..]) == [Blocked(false)] && sock.queue != [] ==>
        acceptors[0] == Blocked(true)
      ensures packet == Idle
    {
      ghost var before := View();
      if acceptors[..] == [Blocked(false)] && sock.queue != [] {
        NoLostWakeUp(states, events, |events|);
      }
      var signals := sock.waitAccept.Notify();
      packet := Idle;
      if signals && who < acceptors.Length && acceptors[who] == Blocked(false) {
        acceptors[who] := Blocked(true);
      }
      Record(Wake(who), before);
    }

    /** wait_exit: nobody waits afterwards, when a single thread accepts. */
    method ShutDown()
      requires Valid() && !broken
      modifies this, sock.waitAccept, acceptors
      ensures Valid() && events == old(events) + [Shutdown] && Guaranteed(View())
      ensures sock.waitAccept.dead
      ensures acceptors.Length == 1 ==> acceptors[0] != Blocked(false)
    {
      ghost var before := View();
      if acceptors.Length == 1 {
        OneAcceptorIsSafe(states, events, |events|);
      }
      var broadcasts := sock.waitAccept.Exit();
      if broadcasts {
        for i := 0 to acceptors.Length
          modifies acceptors
          invariant forall j :: 0 <= j < i ==> acceptors[j] == Signalled(before.acceptors)[j]
          invariant forall j :: i <= j < acceptors.Length ==> acceptors[j] == before.acceptors[j]
        {
          if acceptors[i].Blocked? {
            acceptors[i] := Blocked(true);
          }
        }
        assert acceptors[..] == Signalled(before.acceptors);
      }
      Record(Shutdown, before);
    }

    /** A thread calls tcp_sock_accept. */
    method CallAccept(i: nat)
      requires Valid() && !broken && i < acceptors.Length && acceptors[i] == Outside
      modifies this, acceptors
      ensures Valid() && events == old(events) + [Call(i)] && Guaranteed(View()) && acceptors[i] == Looking
    {
      ghost var before := View();
      acceptors[i] := Looking;
      Record(Call(i), before);
    }

    /** The test of the loop in tcp_sock_accept. */
    method LookAtQueue(i: nat)
      requires Valid() && !broken && i < acceptors.Length && acceptors[i] == Looking
      modifies this, acceptors
      ensures Valid() && events == old(events) + [Look(i)] && Guaranteed(View())
      ensures acceptors[i] == if sock.queue == [] then Entering else Popping
    {
      ghost var before := View();
      acceptors[i] := if sock.queue == [] then Entering else Popping;
      Record(Look(i), before);
    }

    /** sleep_on up to the wait: a single thread blocks only while nothing is queued or a wake-up is owed. */
    method EnterSleep(i: nat)
      requires Valid() && !broken && i < acceptors.Length && acceptors[i] == Entering
      modifies this, sock.waitAccept, acceptors
      ensures Valid() && events == old(events) + [Enter(i)] && Guaranteed(View())
      ensures acceptors[i] == Blocked(false) <==> !old(sock.waitAccept.dead) && !old(sock.waitAccept.notified)
      ensures acceptors.Length == 1 && acceptors[i] == Blocked(false) ==> sock.queue == [] || packet == Waking
    {
      ghost var before := View();
      var blocks := sock.waitAccept.StartSleep();
      acceptors[i] := if blocks then Blocked(false) else Looking;
      Record(Enter(i), before);
      assert acceptors.Length == 1 && acceptors[i] == Blocked(false) ==> View().acceptors == [Blocked(false)];
    }

    /** sleep_on after the wait, signalled or not. */
    method ResumeAccept(i: nat)
      requires Valid() && !broken && i < acceptors.Length && acceptors[i].Blocked?
      modifies this, sock.waitAccept, acceptors
      ensures Valid() && events == old(events) + [Resume(i)] && Guaranteed(View()) && acceptors[i] == Looking
    {
      ghost var before := View();
      sock.waitAccept.FinishSleep();
      acceptors[i] := Looking;
      Record(Resume(i), before);
    }

    /** The end of tcp_sock_accept: the connection that was completed first is returned, established. A thread that
        another has overtaken finds none; a single thread always finds one. */
    method PopChild(i: nat) returns (c: Option<nat>)
      requires Valid() && !broken && i < acceptors.Length && acceptors[i] == Popping
      modifies this, sock, acceptors
      ensures Valid() && events == old(events) + [Pop(i)] && Guaranteed(View()) && acceptors[i] == Outside
      ensures broken <==> c == None
      ensures c == None <==> old(sock.queue) == []
      ensures c == None ==> acceptors.Length >= 2 && sock.queue == [] && sock.acceptBacklog == -1
      ensures c.Some? ==>
        && old(sock.queue) == [c.value] + sock.queue && accepted == old(accepted) + [c.value]
        && c.value < |sock.children| && sock.children[c.value].state == ESTABLISHED
      ensures accepted + sock.queue == old(accepted + sock.queue)
    {
      ghost var before := View();
      QueueIsSound(states, events, acceptors.Length, |events|);
      assert sock.queue != [] ==> Placed(before, sock.queue[0]) && sock.queue[0] in multiset(sock.queue);
      c := sock.AcceptDequeue();
      if c.Some? {
        accepted := accepted + [c.value];
      } else {
        broken := true;
      }
      acceptors[i] := Outside;
      Record(Pop(i), before);
    }
  }
}
