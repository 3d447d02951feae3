/** Accepting threads and the packet thread, interleaved at every release of a lock: no wake-up is lost. */
module AcceptTheorems {
  import opened MachineInts
  import opened AcceptQueue

  /** Where the packet thread is: between segments, about to push a child into the accept queue, or about to
      call wake_up for it. */
  datatype PacketThread = Idle | Pushing(child: nat) | Waking

  /** Where an accepting thread is: outside tcp_sock_accept, about to look at the queue, about to enter
      sleep_on, in pthread_cond_wait, or about to pop the queue. */
  datatype Acceptor = Outside | Looking | Entering | Blocked(signalled: bool) | Popping

  /** `broken`: a thread has popped an empty queue. It takes the list head for a socket and writes to it, so
      nothing is said of what follows. */
  datatype World = World(l: Listener, packet: PacketThread, acceptors: seq<Acceptor>, accepted: seq<nat>,
    refused: seq<nat>, broken: bool)

  datatype Event =
    | Syn(cb: Segment, iss: u32)
    | Ack(child: nat, cb: Segment)
    | Push
    | Wake(who: nat)      // `who` is the waiter that a signal frees, if there is one
    | Shutdown            // wait_exit
    | Call(i: nat)
    | Look(i: nat)
    | Enter(i: nat)
    | Resume(i: nat)      // also without a signal: pthread_cond_wait may return spuriously
    | Pop(i: nat)

  predicate IsWaiting(a: Acceptor) { a == Blocked(false) }

  predicate Enabled(w: World, e: Event) {
    !w.broken &&
    match e
    case Syn(_, _) => w.packet.Idle?
    case Ack(c, _) => w.packet.Idle? && c < |w.l.children| && w.l.children[c].state.SYN_RECV?
    case Push => w.packet.Pushing?
    case Wake(who) =>
      && w.packet.Waking?
      && (WakeUp(w.l.wait).1 && (exists i :: 0 <= i < |w.acceptors| && IsWaiting(w.acceptors[i])) ==>
            who < |w.acceptors| && IsWaiting(w.acceptors[who]))
    case Shutdown => true
    case Call(i) => i < |w.acceptors| && w.acceptors[i].Outside?
    case Look(i) => i < |w.acceptors| && w.acceptors[i].Looking?
    case Enter(i) => i < |w.acceptors| && w.acceptors[i].Entering?
    case Resume(i) => i < |w.acceptors| && w.acceptors[i].Blocked?
    case Pop(i) => i < |w.acceptors| && w.acceptors[i].Popping? && (w.l.queue != [] ==> w.l.queue[0] < |w.l.children|)
  }

  function Signalled(acceptors: seq<Acceptor>): (r: seq<Acceptor>)
    ensures |r| == |acceptors|
    ensures forall i :: 0 <= i < |acceptors| ==> r[i] == if acceptors[i].Blocked? then Blocked(true) else acceptors[i]
  {
    seq(|acceptors|, i requires 0 <= i < |acceptors| => if acceptors[i].Blocked? then Blocked(true) else acceptors[i])
  }

  function Move(w: World, i: nat, a: Acceptor): World
    requires i < |w.acceptors|
  {
    w.(acceptors := w.acceptors[i := a])
  }

  function Apply(w: World, e: Event): World
    requires Enabled(w, e)
  {
    match e
    case Syn(cb, iss) => w.(l := OnListen(w.l, cb, iss))
    case Ack(c, cb) =>
      var (l, out) := OnSynRecv(w.l, c, cb);
      w.(l := l, packet := if out.Completed? then Pushing(c) else Idle,
         refused := if out.Refused? then w.refused + [c] else w.refused)
    case Push => w.(l := Enqueue(w.l, w.packet.child), packet := Waking)
    case Wake(who) =>
      var (wait, signals) := WakeUp(w.l.wait);
      w.(l := w.l.(wait := wait), packet := Idle,
         acceptors :=
           if signals && who < |w.acceptors| && IsWaiting(w.acceptors[who]) then w.acceptors[who := Blocked(true)]
           else w.acceptors)
    case Shutdown =>
      var (wait, broadcasts) := WaitExit(w.l.wait);
      w.(l := w.l.(wait := wait), acceptors := if broadcasts then Signalled(w.acceptors) else w.acceptors)
    case Call(i) => Move(w, i, Looking)
    case Look(i) => Move(w, i, if w.l.queue == [] then Entering else Popping)
    case Enter(i) =>
      var (wait, blocks) := BeginSleep(w.l.wait);
      Move(w.(l := w.l.(wait := wait)), i, if blocks then Blocked(false) else Looking)
    case Resume(i) => Move(w.(l := w.l.(wait := EndSleep(w.l.wait))), i, Looking)
    case Pop(i) =>
      Move(if w.l.queue == [] then w.(l := Dequeue(w.l), broken := true)
           else w.(l := Dequeue(w.l), accepted := w.accepted + [w.l.queue[0]]), i, Outside)
  }

  ghost predicate Init(w: World, threads: nat) {
    && w.l.children == [] && w.l.listening == w.l.queue == [] && w.l.acceptBacklog == 0
      && w.l.wait == Wait(false, false, false)
    && w.packet == Idle && w.acceptors == seq(threads, _ => Outside) && w.accepted == w.refused == []
    && !w.broken
  }

  predicate StepOk(states: seq<World>, events: seq<Event>, k: nat)
    requires |states| == |events| + 1 && k < |events|
  {
    Enabled(states[k], events[k]) && states[k + 1] == Apply(states[k], events[k])
  }

  ghost predicate Run(states: seq<World>, events: seq<Event>, threads: nat) {
    && |states| == |events| + 1 && Init(states[0], threads)
    && forall k {:trigger StepOk(states, events, k)} :: 0 <= k < |events| ==> StepOk(states, events, k)
  }

  // ---- The accept queue ----

  /** accept_backlog counts the queue, and there is room for the child about to be pushed. */
  predicate BacklogOk(w: World) {
    && w.l.acceptBacklog == |w.l.queue| && |w.l.queue| <= (if w.l.backlog > 0 then w.l.backlog else 0)
    && (w.packet.Pushing? ==> |w.l.queue| < w.l.backlog)
  }

  lemma StepKeepsBacklog(w: World, e: Event)
    requires BacklogOk(w) && Enabled(w, e)
    ensures !Apply(w, e).broken ==> BacklogOk(Apply(w, e)) && Apply(w, e).l.backlog == w.l.backlog
  {
  }

  function Times(s: seq<nat>, c: nat): nat { multiset(s)[c] }

  lemma TimesAppend(s: seq<nat>, d: nat, c: nat)
    ensures Times(s + [d], c) == Times(s, c) + if c == d then 1 else 0
  {
  }

  lemma TimesRemove(s: seq<nat>, d: nat, c: nat)
    ensures Times(Remove(s, d), c) == Times(s, c) - if c == d && Times(s, c) > 0 then 1 else 0
  {
  }

  lemma TimesTail(s: seq<nat>, c: nat)
    requires s != []
    ensures Times(s[1..], c) == Times(s, c) - if c == s[0] then 1 else 0
  {
    assert s == [s[0]] + s[1..];
  }

  /** Where child `c` is: on exactly one list, in the state that belongs to it. */
  predicate Placed(w: World, c: nat) {
    var known := c < |w.l.children|;
    && Times(w.l.listening, c) + Times(w.l.queue, c) + Times(w.accepted, c) + Times(w.refused, c)
      == (if known then 1 else 0)
    && (known && Times(w.l.listening, c) > 0 ==>
          w.l.children[c].state == if w.packet == Pushing(c) then ESTABLISHED else SYN_RECV)
    && (known && Times(w.l.queue, c) + Times(w.accepted, c) > 0 ==> w.l.children[c].state == ESTABLISHED)
    && (known && Times(w.refused, c) > 0 ==> w.l.children[c].state == CLOSED)
    && (w.packet == Pushing(c) ==> Times(w.l.listening, c) > 0)
  }

  lemma RefusalKeepsPlaced(w: World, d: nat, cb: Segment, c: nat)
    requires Placed(w, c) && Enabled(w, Ack(d, cb)) && OnSynRecv(w.l, d, cb).1 == Refused
    ensures Placed(Apply(w, Ack(d, cb)), c)
  {
    TimesRemove(w.l.listening, d, c);
    TimesAppend(w.refused, d, c);
  }

  lemma CompletionKeepsPlaced(w: World, d: nat, cb: Segment, c: nat)
    requires Placed(w, c) && Enabled(w, Ack(d, cb)) && OnSynRecv(w.l, d, cb).1 == Completed
    ensures Placed(Apply(w, Ack(d, cb)), c)
  {
  }

  lemma AckKeepsPlaced(w: World, d: nat, cb: Segment, c: nat)
    requires Placed(w, c) && Enabled(w, Ack(d, cb))
    ensures Placed(Apply(w, Ack(d, cb)), c)
  {
    match OnSynRecv(w.l, d, cb).1
    case Ignored => assert Apply(w, Ack(d, cb)) == w;
    case Refused => RefusalKeepsPlaced(w, d, cb, c);
    case Completed => CompletionKeepsPlaced(w, d, cb, c);
  }

  lemma PushKeepsPlaced(w: World, c: nat)
    requires Placed(w, c) && Enabled(w, Push)
    ensures Placed(Apply(w, Push), c)
  {
    TimesRemove(w.l.listening, w.packet.child, c);
    TimesAppend(w.l.queue, w.packet.child, c);
  }

  lemma PopKeepsPlaced(w: World, i: nat, c: nat)
    requires Placed(w, c) && Enabled(w, Pop(i))
    ensures Placed(Apply(w, Pop(i)), c)
  {
    if w.l.queue != [] {
      TimesTail(w.l.queue, c);
      TimesAppend(w.accepted, w.l.queue[0], c);
    }
  }

  lemma SynKeepsPlaced(w: World, cb: Segment, iss: u32, c: nat)
    requires Placed(w, c) && Enabled(w, Syn(cb, iss))
    ensures Placed(Apply(w, Syn(cb, iss)), c)
  {
    TimesAppend(w.l.listening, |w.l.children|, c);
  }

  lemma StepKeepsPlaced(w: World, e: Event, c: nat)
    requires Placed(w, c) && Enabled(w, e)
    ensures Placed(Apply(w, e), c)
  {
    match e
    case Syn(cb, iss) => SynKeepsPlaced(w, cb, iss, c);
    case Ack(d, cb) => AckKeepsPlaced(w, d, cb, c);
    case Push => PushKeepsPlaced(w, c);
    case Pop(i) => PopKeepsPlaced(w, i, c);
    case _ =>
      var w' := Apply(w, e);
      assert w'.l.children == w.l.children && w'.l.listening == w.l.listening && w'.l.queue == w.l.queue;
      assert w'.accepted == w.accepted && w'.refused == w.refused && (!w'.packet.Pushing? || w'.packet == w.packet);
  }

  /** Over all runs, with any number of accepting threads: until a thread pops an empty queue the counter is the
      length of the queue and never exceeds the backlog, and each child is on one list in the right state. With one
      accepting thread no thread ever does. */
  lemma {:induction false} QueueIsSound(states: seq<World>, events: seq<Event>, threads: nat, k: nat)
    requires Run(states, events, threads) && k < |states|
    ensures !states[k].broken ==> BacklogOk(states[k])
    ensures forall c: nat :: Placed(states[k], c)
    ensures threads <= 1 ==> !states[k].broken
  {
    if threads <= 1 {
      FewAcceptorsAreSafe(states, events, threads, k);
    }
    if k > 0 {
      QueueIsSound(states, events, threads, k - 1);
      assert StepOk(states, events, k - 1);
      StepKeepsBacklog(states[k - 1], events[k - 1]);
      forall c: nat ensures Placed(states[k], c) {
        StepKeepsPlaced(states[k - 1], events[k - 1], c);
      }
    }
  }

  predicate Prefix(a: seq<nat>, b: seq<nat>) { |a| <= |b| && a == b[..|a|] }

  lemma PushedLast(accepted: seq<nat>, queue: seq<nat>, c: nat)
    ensures Prefix(accepted + queue, accepted + (queue + [c]))
  {
    assert accepted + (queue + [c]) == (accepted + queue) + [c];
  }

  lemma PoppedFirst(accepted: seq<nat>, queue: seq<nat>)
    requires queue != []
    ensures (accepted + [queue[0]]) + queue[1..] == accepted + queue
  {
    assert queue == [queue[0]] + queue[1..];
  }

  lemma PushKeepsOrder(w: World)
    requires Enabled(w, Push)
    ensures Prefix(w.accepted + w.l.queue, Apply(w, Push).accepted + Apply(w, Push).l.queue)
  {
    PushedLast(w.accepted, w.l.queue, w.packet.child);
  }

  lemma PopKeepsOrder(w: World, i: nat)
    requires Enabled(w, Pop(i))
    ensures Prefix(w.accepted + w.l.queue, Apply(w, Pop(i)).accepted + Apply(w, Pop(i)).l.queue)
  {
    if w.l.queue != [] {
      PoppedFirst(w.accepted, w.l.queue);
    }
  }

  lemma StepKeepsOrder(w: World, e: Event)
    requires Enabled(w, e)
    ensures Prefix(w.accepted + w.l.queue, Apply(w, e).accepted + Apply(w, e).l.queue)
  {
    match e
    case Push => PushKeepsOrder(w);
    case Pop(i) => PopKeepsOrder(w, i);
    case _ => assert Apply(w, e).accepted == w.accepted && Apply(w, e).l.queue == w.l.queue;
  }

  /** Connections are accepted in the order in which they were pushed: what has been accepted followed by the
      queue only grows at its end. */
  lemma {:induction false} AcceptedInOrder(states: seq<World>, events: seq<Event>, threads: nat, j: nat, k: nat)
    requires Run(states, events, threads) && j <= k < |states|
    ensures Prefix(states[j].accepted + states[j].l.queue, states[k].accepted + states[k].l.queue)
  {
    if j < k {
      AcceptedInOrder(states, events, threads, j, k - 1);
      assert StepOk(states, events, k - 1);
      StepKeepsOrder(states[k - 1], events[k - 1]);
    }
  }

  // ---- No lost wake-up ----

  /** What a single accepting thread may rely on. */
  predicate WakeOk(w: World, a: Acceptor) {
    var idle := w.l.queue == [] || w.packet.Waking?;
    match a
    case Entering => idle || w.l.wait.notified || w.l.wait.dead
    case Blocked(signalled) => signalled || (idle && w.l.wait == Wait(false, false, true))
    case Popping => w.l.queue != []
    case _ => true
  }

  lemma {:induction false} OneAcceptorIsSafe(states: seq<World>, events: seq<Event>, k: nat)
    requires Run(states, events, 1) && k < |states|
    ensures |states[k].acceptors| == 1 && WakeOk(states[k], states[k].acceptors[0]) && !states[k].broken
  {
    if k > 0 {
      OneAcceptorIsSafe(states, events, k - 1);
      assert StepOk(states, events, k - 1);
      WakeStep(states[k - 1], events[k - 1]);
    }
  }

  lemma WakeStep(w: World, e: Event)
    requires |w.acceptors| == 1 && WakeOk(w, w.acceptors[0]) && Enabled(w, e)
    ensures |Apply(w, e).acceptors| == 1 && WakeOk(Apply(w, e), Apply(w, e).acceptors[0]) && !Apply(w, e).broken
  {
    if e.Wake? {
      assert IsWaiting(w.acceptors[0]) ==> w.l.wait.sleep && !w.l.wait.notified;
    }
  }

  /** A single thread that is about to pop still finds what it saw. */
  lemma FewAcceptorsAreSafe(states: seq<World>, events: seq<Event>, threads: nat, k: nat)
    requires Run(states, events, threads) && k < |states| && threads <= 1
    ensures !states[k].broken
  {
    if threads == 1 {
      OneAcceptorIsSafe(states, events, k);
    } else if k > 0 {
      ThreadsStay(states, events, threads, k - 1);
      assert StepOk(states, events, k - 1);
    }
  }

  /** No lost wake-up: in every interleaving of one accepting thread and the packet thread, a thread that waits
      while the queue is not empty is owed a wake-up, and that wake-up will signal it. */
  lemma NoLostWakeUp(states: seq<World>, events: seq<Event>, k: nat)
    requires Run(states, events, 1) && k < |states|
    requires states[k].acceptors == [Blocked(false)] && states[k].l.queue != []
    ensures states[k].packet == Waking
    ensures forall who :: Enabled(states[k], Wake(who)) ==> Apply(states[k], Wake(who)).acceptors[0] == Blocked(true)
  {
    OneAcceptorIsSafe(states, events, k);
    var w := states[k];
    forall who | Enabled(w, Wake(who)) ensures Apply(w, Wake(who)).acceptors[0] == Blocked(true) {
      assert IsWaiting(w.acceptors[0]);
    }
  }

  /** The next step of an accepting thread, none while it waits. */
  function OwnStep(a: Acceptor, i: nat): Event
    requires a != Blocked(false)
  {
    match a
    case Outside => Call(i)
    case Looking => Look(i)
    case Entering => Enter(i)
    case Blocked(_) => Resume(i)
    case Popping => Pop(i)
  }

  /** Steps of its own that a thread inside accept needs to pop a queue that is not empty. */
  function Distance(a: Acceptor): nat {
    match a
    case Outside => 4
    case Looking => 2
    case Entering => 3
    case Blocked(_) => 3
    case Popping => 1
  }

  /** Progress: with the queue not empty and the packet thread idle, the accepting thread can move, and three
      steps of its own at most lead from inside accept to the head of the queue. */
  lemma AcceptorProgresses(states: seq<World>, events: seq<Event>, k: nat)
    requires Run(states, events, 1) && k < |states| && states[k].l.queue != [] && states[k].packet == Idle
    ensures |states[k].acceptors| == 1 && states[k].acceptors[0] != Blocked(false)
    ensures var w, a := states[k], states[k].acceptors[0];
      var e := OwnStep(a, 0);
      && Enabled(w, e)
      && if a.Popping? then Apply(w, e).accepted == w.accepted + [w.l.queue[0]]
         else (Apply(w, e).l.queue == w.l.queue && Apply(w, e).packet == Idle
               && Distance(Apply(w, e).acceptors[0]) < Distance(a))
  {
    OneAcceptorIsSafe(states, events, k);
    QueueIsSound(states, events, 1, k);
    assert Placed(states[k], states[k].l.queue[0]);
    assert states[k].l.queue[0] in multiset(states[k].l.queue);
  }

  // ---- One accepting thread is all the wait structure supports ----

  /** Nobody is left to wake the waiting threads: every other one is outside accept, the packet thread owes
      nothing, and a connection is in the queue. */
  predicate Lost(w: World) {
    && !w.broken && w.packet.Idle? && w.l.queue != []
    && (exists i :: 0 <= i < |w.acceptors| && IsWaiting(w.acceptors[i]))
    && forall i :: 0 <= i < |w.acceptors| ==> w.acceptors[i].Outside? || IsWaiting(w.acceptors[i])
  }

  ghost predicate NeverLost(threads: nat) {
    forall states: seq<World>, events: seq<Event>, k: nat :: Run(states, events, threads) && k < |states| ==>
      !Lost(states[k])
  }

  ghost predicate EndsAt(states: seq<World>, events: seq<Event>, threads: nat, w: World) {
    Run(states, events, threads) && states[|events|] == w
  }

  ghost predicate Reachable(w: World, threads: nat) {
    exists states: seq<World>, events: seq<Event> :: EndsAt(states, events, threads, w)
  }

  lemma RunExtends(states: seq<World>, events: seq<Event>, e: Event, threads: nat)
    requires Run(states, events, threads) && Enabled(states[|events|], e)
    ensures Run(states + [Apply(states[|events|], e)], events + [e], threads)
  {
    var states', events' := states + [Apply(states[|events|], e)], events + [e];
    forall k | 0 <= k < |events'| ensures StepOk(states', events', k) {
      if k < |events| {
        assert StepOk(states, events, k);
      }
    }
  }

  lemma ReachStep(w: World, e: Event, threads: nat)
    requires Reachable(w, threads) && Enabled(w, e)
    ensures Reachable(Apply(w, e), threads)
  {
    var states: seq<World>, events: seq<Event> :| EndsAt(states, events, threads, w);
    RunExtends(states, events, e, threads);
    assert EndsAt(states + [Apply(w, e)], events + [e], threads, Apply(w, e));
  }

  /** A handshake runs up to its wake-up. */
  lemma Shake(w: World, threads: nat) returns (w': World)
    requires Reachable(w, threads) && !w.broken && w.packet == Idle
    requires w.l.listening == [] && w.l.acceptBacklog < w.l.backlog
    ensures Reachable(w', threads) && !w'.broken && w'.packet == Waking && w'.l.backlog == w.l.backlog
    ensures w'.l.listening == [] && w'.l.queue == w.l.queue + [|w.l.children|]
      && w'.l.acceptBacklog == w.l.acceptBacklog + 1
    ensures |w'.l.children| == |w.l.children| + 1 && w'.l.wait == w.l.wait && w'.acceptors == w.acceptors
  {
    var nowhere := Endpoint(0, 0);
    var syn, ack := Segment(nowhere, nowhere, 0, 0, 0, TCP_SYN), Segment(nowhere, nowhere, 0, 0, 1, TCP_ACK);
    var c := |w.l.children|;
    var w1 := Apply(w, Syn(syn, 0));
    ReachStep(w, Syn(syn, 0), threads);
    assert w1.l.children[c].rcvNxt == 0 && w1.l.listening == [c];
    assert SeqValid(0, TCP_DEFAULT_WINDOW, 0, 0);
    var w2 := Apply(w1, Ack(c, ack));
    ReachStep(w1, Ack(c, ack), threads);
    assert w2.packet == Pushing(c);
    ReachStep(w2, Push, threads);
    w' := Apply(w2, Push);
  }

  /** The wake-up follows. */
  lemma Connect(w: World, who: nat, threads: nat) returns (w': World)
    requires Reachable(w, threads) && !w.broken && w.packet == Idle
    requires w.l.listening == [] && w.l.acceptBacklog < w.l.backlog
    requires Enabled(w.(packet := Waking), Wake(who))
    ensures Reachable(w', threads) && !w'.broken && w'.packet == Idle && w'.l.backlog == w.l.backlog
    ensures w'.l.listening == [] && w'.l.queue == w.l.queue + [|w.l.children|]
      && w'.l.acceptBacklog == w.l.acceptBacklog + 1
    ensures |w'.l.children| == |w.l.children| + 1 && w'.l.wait == WakeUp(w.l.wait).0
    ensures w'.acceptors == Apply(w.(packet := Waking), Wake(who)).acceptors
  {
    var w1 := Shake(w, threads);
    ReachStep(w1, Wake(who), threads);
    w' := Apply(w1, Wake(who));
  }

  /** A thread calls accept, finds the queue empty and waits. */
  lemma FallAsleep(w: World, i: nat, threads: nat) returns (w': World)
    requires Reachable(w, threads) && !w.broken && i < |w.acceptors| && w.acceptors[i] == Outside
    requires w.l.queue == [] && !w.l.wait.notified && !w.l.wait.dead
    ensures Reachable(w', threads)
    ensures w' == w.(l := w.l.(wait := Wait(false, false, true)), acceptors := w.acceptors[i := Blocked(false)])
  {
    ReachStep(w, Call(i), threads);
    var w1 := Apply(w, Call(i));
    ReachStep(w1, Look(i), threads);
    var w2 := Apply(w1, Look(i));
    ReachStep(w2, Enter(i), threads);
    w' := Apply(w2, Enter(i));
    assert w'.acceptors == w.acceptors[i := Blocked(false)];
  }

  /** A signalled thread wakes up and pops the queue. */
  lemma Serve(w: World, i: nat, threads: nat) returns (w': World)
    requires Reachable(w, threads) && !w.broken && i < |w.acceptors| && w.acceptors[i] == Blocked(true)
    requires w.l.queue != [] && w.l.queue[0] < |w.l.children| && !w.l.wait.dead
    ensures Reachable(w', threads) && !w'.broken
    ensures w'.packet == w.packet && w'.l.listening == w.l.listening && w'.l.backlog == w.l.backlog
    ensures w'.l.queue == w.l.queue[1..] && w'.l.acceptBacklog == w.l.acceptBacklog - 1
      && |w'.l.children| == |w.l.children|
    ensures w'.l.wait == Wait(false, false, false) && w'.acceptors == w.acceptors[i := Outside]
  {
    ReachStep(w, Resume(i), threads);
    var w1 := Apply(w, Resume(i));
    ReachStep(w1, Look(i), threads);
    var w2 := Apply(w1, Look(i));
    ReachStep(w2, Pop(i), threads);
    w' := Apply(w2, Pop(i));
    assert w'.acceptors == w.acceptors[i := Outside];
  }

  lemma Start(threads: nat) returns (w: World)
    ensures Reachable(w, threads)
    ensures w == World(Listener([], [], [], 0, 1, Wait(false, false, false)), Idle, seq(threads, _ => Outside), [], [],
                       false)
  {
    w := World(Listener([], [], [], 0, 1, Wait(false, false, false)), Idle, seq(threads, _ => Outside), [], [], false);
    var states, events: seq<Event> := [w], [];
    assert EndsAt(states, events, threads, w);
  }

  /** With two threads asleep, the first to wake clears the flag that says the second still sleeps, and the
      next wake_up signals nobody. */
  lemma TwoAcceptorsLose(threads: nat) returns (w: World)
    requires threads >= 2
    ensures Reachable(w, threads) && Lost(w)
  {
    w := Start(threads);
    w := FallAsleep(w, 0, threads);
    w := FallAsleep(w, 1, threads);
    assert IsWaiting(w.acceptors[0]) && forall i :: 2 <= i < threads ==> w.acceptors[i] == Outside;
    w := Connect(w, 0, threads);
    w := Serve(w, 0, threads);
    w := Connect(w, 1, threads);
    assert IsWaiting(w.acceptors[1]);
  }

  lemma {:induction false} ThreadsStay(states: seq<World>, events: seq<Event>, threads: nat, k: nat)
    requires Run(states, events, threads) && k < |states|
    ensures |states[k].acceptors| == threads
  {
    if k > 0 {
      ThreadsStay(states, events, threads, k - 1);
      assert StepOk(states, events, k - 1);
    }
  }

  /** No run loses a wake-up exactly when at most one thread accepts on the socket. */
  lemma NeverLostIffOneAcceptor(threads: nat)
    ensures NeverLost(threads) <==> threads <= 1
  {
    if threads <= 1 {
      forall states: seq<World>, events: seq<Event>, k: nat | Run(states, events, threads) && k < |states|
        ensures !Lost(states[k])
      {
        ThreadsStay(states, events, threads, k);
        if threads == 1 && Lost(states[k]) {
          NoLostWakeUp(states, events, k);
        }
      }
    } else {
      var w := TwoAcceptorsLose(threads);
      var states: seq<World>, events: seq<Event> :| EndsAt(states, events, threads, w);
      assert Lost(states[|events|]);
    }
  }

  // ---- Nor does popping the queue support more ----

  /** A thread calls accept and sees work. */
  lemma SeeWork(w: World, i: nat, threads: nat) returns (w': World)
    requires Reachable(w, threads) && !w.broken && i < |w.acceptors| && w.acceptors[i] == Outside && w.l.queue != []
    ensures Reachable(w', threads) && w' == w.(acceptors := w.acceptors[i := Popping])
  {
    ReachStep(w, Call(i), threads);
    var w1 := Apply(w, Call(i));
    ReachStep(w1, Look(i), threads);
    w' := Apply(w1, Look(i));
    assert w'.acceptors == w.acceptors[i := Popping];
  }

  /** Two threads see the one connection that is queued, and both pop: accept_backlog is -1 and the second has taken
      the list head for a socket. */
  lemma TwoAcceptorsBreak(threads: nat) returns (w: World)
    requires threads >= 2
    ensures Reachable(w, threads) && w.broken && w.l.queue == [] && w.l.acceptBacklog == -1
  {
    w := Start(threads);
    w := Connect(w, 0, threads);
    w := SeeWork(w, 0, threads);
    w := SeeWork(w, 1, threads);
    ReachStep(w, Pop(0), threads);
    w := Apply(w, Pop(0));
    ReachStep(w, Pop(1), threads);
    w := Apply(w, Pop(1));
  }

  ghost predicate NeverBroken(threads: nat) {
    forall states: seq<World>, events: seq<Event>, k: nat :: Run(states, events, threads) && k < |states| ==>
      !states[k].broken
  }

  /** No run pops an empty queue exactly when at most one thread accepts on the socket. */
  lemma NeverBrokenIffOneAcceptor(threads: nat)
    ensures NeverBroken(threads) <==> threads <= 1
  {
    if threads <= 1 {
      forall states: seq<World>, events: seq<Event>, k: nat | Run(states, events, threads) && k < |states|
        ensures !states[k].broken
      {
        FewAcceptorsAreSafe(states, events, threads, k);
      }
    } else {
      var w := TwoAcceptorsBreak(threads);
      var states: seq<World>, events: seq<Event> :| EndsAt(states, events, threads, w);
      assert states[|events|].broken;
    }
  }

  /** A thread about to pop has looked. */
  lemma {:induction false} PopperLooked(states: seq<World>, events: seq<Event>, threads: nat, k: nat, i: nat)
      returns (look: nat)
    requires Run(states, events, threads) && k < |states| && i < |states[k].acceptors|
    requires states[k].acceptors[i] == Popping
    ensures look < k && events[look] == Look(i) && states[look].l.queue != []
  {
    assert k > 0;
    assert StepOk(states, events, k - 1);
    if events[k - 1] == Look(i) {
      look := k - 1;
    } else {
      look := PopperLooked(states, events, threads, k - 1, i);
    }
  }

  /** A thread that is about to pop an empty queue has been overtaken: after it saw the queue not empty another
      thread popped it. */
  lemma {:induction false} EmptyPopWasOvertaken(states: seq<World>, events: seq<Event>, threads: nat, k: nat, i: nat)
      returns (look: nat, rival: nat)
    requires Run(states, events, threads) && k < |states| && i < |states[k].acceptors|
    requires states[k].acceptors[i] == Popping && states[k].l.queue == []
    ensures look < rival < k && events[look] == Look(i) && states[look].l.queue != []
    ensures events[rival].Pop? && events[rival].i != i
  {
    assert k > 0;
    assert StepOk(states, events, k - 1);
    if states[k - 1].l.queue == [] {
      look, rival := EmptyPopWasOvertaken(states, events, threads, k - 1, i);
    } else {
      look := PopperLooked(states, events, threads, k - 1, i);
      rival := k - 1;
    }
  }
}
