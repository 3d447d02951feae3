/** accept_backlog is changed without a lock: by the packet thread after it has linked a child into the queue, and by
    the accepting thread after it has unlinked one, each by reading the counter and storing it back
    (12-tcp_stack/tcp_sock.c). AcceptTheorems takes each change as one step; this is what finer steps do. */
module AcceptCounter {
  /** Where a thread is: done, before it reads the counter, or before it stores what it has computed. */
  datatype Phase = Done | Linked | Read(value: int)

  datatype World = World(queue: nat, counter: int, push: Phase, pop: Phase)

  datatype Event = PushLink | PushRead | PushStore | PopLink | PopRead | PopStore

  predicate Enabled(w: World, e: Event) {
    match e
    case PushLink => w.push.Done?
    case PushRead => w.push.Linked?
    case PushStore => w.push.Read?
    case PopLink => w.pop.Done? && w.queue > 0
    case PopRead => w.pop.Linked?
    case PopStore => w.pop.Read?
  }

  function Apply(w: World, e: Event): World
    requires Enabled(w, e)
  {
    match e
    case PushLink => w.(queue := w.queue + 1, push := Linked)
    case PushRead => w.(push := Read(w.counter))
    case PushStore => w.(counter := w.push.value + 1, push := Done)
    case PopLink => w.(queue := w.queue - 1, pop := Linked)
    case PopRead => w.(pop := Read(w.counter))
    case PopStore => w.(counter := w.pop.value - 1, pop := Done)
  }

  predicate StepOk(states: seq<World>, events: seq<Event>, k: nat)
    requires |states| == |events| + 1 && k < |events|
  {
    Enabled(states[k], events[k]) && states[k + 1] == Apply(states[k], events[k])
  }

  ghost predicate Run(states: seq<World>, events: seq<Event>) {
    && |states| == |events| + 1 && states[0] == World(0, 0, Done, Done)
    && forall k {:trigger StepOk(states, events, k)} :: 0 <= k < |events| ==> StepOk(states, events, k)
  }

  /** One thread stores between the other's read and store. */
  predicate Overlaps(w: World, e: Event) {
    (e.PushStore? && w.pop.Read?) || (e.PopStore? && w.push.Read?)
  }

  /** The counter lacks what the threads have linked and not yet stored, and what they have read is what it holds. */
  predicate Sound(w: World) {
    && w.counter == w.queue - (if w.push.Done? then 0 else 1) + (if w.pop.Done? then 0 else 1)
    && (w.push.Read? ==> w.push.value == w.counter) && (w.pop.Read? ==> w.pop.value == w.counter)
  }

  /** Without overlap the counter is the length of the queue whenever both threads are done. */
  lemma {:induction false} CounterIsSound(states: seq<World>, events: seq<Event>, k: nat)
    requires Run(states, events) && k < |states| && forall j :: 0 <= j < k ==> !Overlaps(states[j], events[j])
    ensures Sound(states[k])
    ensures states[k].push.Done? && states[k].pop.Done? ==> states[k].counter == states[k].queue
  {
    if k > 0 {
      CounterIsSound(states, events, k - 1);
      assert StepOk(states, events, k - 1);
      assert !Overlaps(states[k - 1], events[k - 1]);
    }
  }

  /** Both threads finish, the one with the given store first. */
  function Finish(w: World, pushFirst: bool): World
    requires w.push.Read? && w.pop.Read?
  {
    if pushFirst then Apply(Apply(w, PushStore), PopStore) else Apply(Apply(w, PopStore), PushStore)
  }

  /** The first overlap of a run loses the change that is stored first: from then on the counter is one short of
      the queue, or one over it. */
  lemma OverlapLoses(states: seq<World>, events: seq<Event>, k: nat, pushFirst: bool)
    requires Run(states, events) && k < |states| && forall j :: 0 <= j < k ==> !Overlaps(states[j], events[j])
    requires states[k].push.Read? && states[k].pop.Read?
    ensures Overlaps(states[k], if pushFirst then PushStore else PopStore)
    ensures var w := Finish(states[k], pushFirst);
      w.push.Done? && w.pop.Done? && w.counter == w.queue + if pushFirst then -1 else 1
  {
    CounterIsSound(states, events, k);
  }

  /** It happens: with one child queued another is pushed while the first is popped, and the counter says 0 with
      one in the queue. */
  lemma CounterDrifts() returns (states: seq<World>, events: seq<Event>)
    ensures Run(states, events)
    ensures states[|events|] == World(1, 0, Done, Done)
  {
    events := [PushLink, PushRead, PushStore, PushLink, PopLink, PushRead, PopRead, PushStore, PopStore];
    states := [World(0, 0, Done, Done), World(1, 0, Linked, Done), World(1, 0, Read(0), Done), World(1, 1, Done, Done),
               World(2, 1, Linked, Done), World(1, 1, Linked, Linked), World(1, 1, Read(1), Linked),
               World(1, 1, Read(1), Read(1)), World(1, 2, Done, Read(1)), World(1, 0, Done, Done)];
    forall k | 0 <= k < |events| ensures StepOk(states, events, k) {
    }
  }
}
