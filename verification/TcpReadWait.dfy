/** A reading thread and the delivery of data, interleaved: handle_rcv_data wakes the reader only if it sees
    the sleep flag set, and that test is made without the lock (12-tcp_stack/tcp_sock.c). */
module TcpReadWait {
  import opened AcceptQueue

  /** Where delivery is: between segments, before the test of the sleep flag, or before wake_up. */
  datatype Writer = Idle | Testing | Waking

  /** Where the thread is: outside tcp_sock_read, before the test of the ring, before sleep_on, in
      pthread_cond_wait, before read_ring_buffer, or before its own wake_up. */
  datatype Reader = Outside | Looking | Entering | Blocked(signalled: bool) | Reading | Notifying

  /** `data` is the number of bytes in the ring. */
  datatype World = World(wait: Wait, data: nat, writer: Writer, reader: Reader)

  datatype Event = Deliver(n: nat) | Test | Wake | Shutdown | Call | Look | Enter | Resume | Take(n: nat) | Notify

  predicate Enabled(w: World, e: Event) {
    match e
    case Deliver(n) => w.writer.Idle? && n > 0
    case Test => w.writer.Testing?
    case Wake => w.writer.Waking?
    case Shutdown => true
    case Call => w.reader.Outside?
    case Look => w.reader.Looking?
    case Enter => w.reader.Entering?
    case Resume => w.reader.Blocked?
    case Take(n) => w.reader.Reading? && n <= w.data
    case Notify => w.reader.Notifying?
  }

  function Signal(r: Reader, signals: bool): Reader {
    if signals && r.Blocked? then Blocked(true) else r
  }

  function Apply(w: World, e: Event): World
    requires Enabled(w, e)
  {
    match e
    case Deliver(n) => w.(data := w.data + n, writer := Testing)
    case Test => w.(writer := if w.wait.sleep then Waking else Idle)
    case Wake => w.(wait := WakeUp(w.wait).0, writer := Idle, reader := Signal(w.reader, WakeUp(w.wait).1))
    case Shutdown => w.(wait := WaitExit(w.wait).0, reader := Signal(w.reader, WaitExit(w.wait).1))
    case Call => w.(reader := Looking)
    case Look => w.(reader := if w.data == 0 then Entering else Reading)
    case Enter =>
      var (wait, blocks) := BeginSleep(w.wait);
      w.(wait := wait, reader := if blocks then Blocked(false) else if wait.dead then Outside else Looking)
    case Resume => w.(wait := EndSleep(w.wait), reader := if w.wait.dead then Outside else Looking)
    case Take(n) => w.(data := w.data - n, reader := Notifying)
    case Notify => w.(wait := WakeUp(w.wait).0, reader := Outside)
  }

  predicate Init(w: World) { w == World(Wait(false, false, false), 0, Idle, Outside) }

  predicate StepOk(states: seq<World>, events: seq<Event>, k: nat)
    requires |states| == |events| + 1 && k < |events|
  {
    Enabled(states[k], events[k]) && states[k + 1] == Apply(states[k], events[k])
  }

  ghost predicate Run(states: seq<World>, events: seq<Event>) {
    && |states| == |events| + 1 && Init(states[0])
    && forall k {:trigger StepOk(states, events, k)} :: 0 <= k < |events| ==> StepOk(states, events, k)
  }

  /** The reader waits, there is something to read, and nobody is about to wake it. */
  predicate Lost(w: World) { w.reader == Blocked(false) && w.data > 0 && w.writer.Idle? }

  /** The flag is tested after the reader has found the ring empty and before it goes to sleep. */
  predicate Missed(w: World, e: Event) {
    e.Test? && w.reader.Entering? && w.data > 0 && !w.wait.notified && !w.wait.dead
  }

  /** What holds as long as no test has been missed. */
  predicate WakeOk(w: World) {
    var owed := w.data == 0 || !w.writer.Idle?;
    && (w.wait.sleep ==> w.reader.Blocked?)
    && (w.reader.Entering? ==> owed || w.wait.notified || w.wait.dead)
    && (w.reader == Blocked(false) ==> owed && w.wait == Wait(false, false, true))
  }

  lemma StepKeepsWakeOk(w: World, e: Event)
    requires WakeOk(w) && Enabled(w, e) && !Missed(w, e)
    ensures WakeOk(Apply(w, e))
  {
  }

  /** A wake-up is lost only in a run that has missed a test. */
  lemma {:induction false} LostOnlyIfMissed(states: seq<World>, events: seq<Event>, k: nat)
    requires Run(states, events) && k < |states|
    requires forall j :: 0 <= j < k ==> !Missed(states[j], events[j])
    ensures WakeOk(states[k]) && !Lost(states[k])
  {
    if k > 0 {
      LostOnlyIfMissed(states, events, k - 1);
      assert StepOk(states, events, k - 1);
      StepKeepsWakeOk(states[k - 1], events[k - 1]);
    }
  }

  /** And a missed test loses it as soon as the reader goes on: in every state a run without missed tests can
      reach, testing the flag and then going to sleep loses the wake-up exactly when the test is missed. */
  lemma MissedMeansLost(states: seq<World>, events: seq<Event>, k: nat)
    requires Run(states, events) && k < |states|
    requires forall j :: 0 <= j < k ==> !Missed(states[j], events[j])
    requires states[k].writer.Testing? && states[k].reader.Entering?
    ensures Missed(states[k], Test) <==> Lost(Apply(Apply(states[k], Test), Enter))
  {
    LostOnlyIfMissed(states, events, k);
  }

  /** It happens: the data arrives between the reader's look at the ring and its sleep. */
  lemma WakeUpCanBeLost() returns (states: seq<World>, events: seq<Event>)
    ensures Run(states, events) && Lost(states[|events|])
  {
    var w0 := World(Wait(false, false, false), 0, Idle, Outside);
    var w1 := Apply(w0, Call);
    var w2 := Apply(w1, Look);
    var w3 := Apply(w2, Deliver(1));
    var w4 := Apply(w3, Test);
    var w5 := Apply(w4, Enter);
    states, events := [w0, w1, w2, w3, w4, w5], [Call, Look, Deliver(1), Test, Enter];
    forall k | 0 <= k < |events| ensures StepOk(states, events, k) {
    }
  }

  // ---- When the reader sleeps, told from the events ----

  /** wait_exit has been called before event `k`. */
  predicate Over(events: seq<Event>, k: nat)
    requires k <= |events|
  {
    exists j :: 0 <= j < k && events[j].Shutdown?
  }

  predicate NonePassed(events: seq<Event>, a: nat, k: nat)
    requires k <= |events|
  {
    forall j :: a <= j < k ==> !events[j].Enter? && !events[j].Resume?
  }

  /** Delivery, or the reader itself at the end of its last call, has called wake_up since the reader was last in
      sleep_on. */
  predicate Woken(events: seq<Event>, k: nat)
    requires k <= |events|
  {
    exists j :: 0 <= j < k && (events[j].Wake? || events[j].Notify?) && NonePassed(events, j + 1, k)
  }

  lemma WokenStep(events: seq<Event>, k: nat)
    requires 0 < k <= |events|
    ensures Woken(events, k) <==>
      events[k - 1].Wake? || events[k - 1].Notify?
      || (Woken(events, k - 1) && !events[k - 1].Enter? && !events[k - 1].Resume?)
  {
    if events[k - 1].Wake? || events[k - 1].Notify? {
      assert NonePassed(events, k, k);
    }
    if Woken(events, k - 1) && !events[k - 1].Enter? && !events[k - 1].Resume? {
      var j :| 0 <= j < k - 1 && (events[j].Wake? || events[j].Notify?) && NonePassed(events, j + 1, k - 1);
      assert NonePassed(events, j + 1, k);
    }
    if Woken(events, k) && !events[k - 1].Wake? && !events[k - 1].Notify? {
      var j :| 0 <= j < k && (events[j].Wake? || events[j].Notify?) && NonePassed(events, j + 1, k);
      assert NonePassed(events, j + 1, k - 1) && NonePassed(events, k - 1, k);
    }
  }

  lemma {:induction false} FlagsAreTold(states: seq<World>, events: seq<Event>, k: nat)
    requires Run(states, events) && k < |states|
    ensures states[k].wait.dead <==> Over(events, k)
    ensures !Over(events, k) ==> (states[k].wait.notified <==> Woken(events, k))
  {
    if k > 0 {
      FlagsAreTold(states, events, k - 1);
      assert StepOk(states, events, k - 1);
      WokenStep(events, k);
      assert Over(events, k) <==> Over(events, k - 1) || events[k - 1].Shutdown?;
    }
  }

  /** A reader that comes to sleep_on returns 0 exactly after wait_exit; otherwise it blocks exactly when no wake_up has
      come since it was last there, and looks at the ring again when one has, which it uses up. */
  lemma SleepsUnlessWoken(states: seq<World>, events: seq<Event>, k: nat)
    requires Run(states, events) && k < |events| && events[k].Enter?
    ensures states[k + 1].reader
      == if Over(events, k) then Outside else if Woken(events, k) then Looking else Blocked(false)
  {
    FlagsAreTold(states, events, k);
    assert StepOk(states, events, k);
  }

  /** A call ends exactly with the reader's own wake_up, or with 0 in sleep_on after wait_exit. */
  lemma CallEnds(states: seq<World>, events: seq<Event>, k: nat)
    requires Run(states, events) && k < |events| && !states[k].reader.Outside?
    ensures states[k + 1].reader.Outside? <==>
      events[k].Notify? || ((events[k].Enter? || events[k].Resume?) && Over(events, k))
  {
    FlagsAreTold(states, events, k);
    assert StepOk(states, events, k);
  }
}
