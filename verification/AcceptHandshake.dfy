/** Where the fields of a passive connection come from, over runs (12-tcp_stack/tcp_in.c). */
module AcceptHandshake {
  import opened MachineInts
  import opened AcceptQueue
  import opened AcceptTheorems

  /** Event `k` is the SYN of child `c`. */
  predicate SynOf(states: seq<World>, events: seq<Event>, k: nat, c: nat)
    requires k < |events| < |states|
  {
    events[k].Syn? && events[k].cb.flags == 0x02 && |states[k].l.children| == c
  }

  /** Event `m` is a bare ACK to child `c` inside the window that its SYN, which ended at `rcvNxt`, opened. */
  predicate AckTo(events: seq<Event>, m: nat, c: nat, rcvNxt: u32)
    requires m < |events|
  {
    && events[m].Ack? && events[m].child == c && events[m].cb.flags == 0x10
    && SeqValid(rcvNxt, 65535, events[m].cb.seqNum, events[m].cb.seqEnd)
  }

  /** What the SYN fixes: who talks to whom, from which sequence number, and the window. */
  predicate FromSyn(child: Child, syn: Segment, iss: u32) {
    && child.local == syn.dst && child.peer == syn.src && child.iss == iss && child.sndNxt == U32(iss + 1)
    && child.rcvWnd == 65535
  }

  /** A child still waiting expects what follows its SYN; one that was completed or refused took both numbers from the
      ACK that did it. */
  ghost predicate Explained(states: seq<World>, events: seq<Event>, k: nat, t: nat, c: nat)
    requires k < t < |states| == |events| + 1
  {
    && c < |states[t].l.children| && SynOf(states, events, k, c)
    && var child := states[t].l.children[c];
      && FromSyn(child, events[k].cb, events[k].iss)
      && if child.state == SYN_RECV then child.rcvNxt == events[k].cb.seqEnd && child.sndUna == 0
         else exists m {:trigger AckTo(events, m, c, events[k].cb.seqEnd)} ::
           && k < m < t && AckTo(events, m, c, events[k].cb.seqEnd)
           && child.rcvNxt == events[m].cb.seqEnd && child.sndUna == events[m].cb.ack
  }

  lemma SynExplains(states: seq<World>, events: seq<Event>, threads: nat, k: nat)
    requires Run(states, events, threads) && k < |events|
    requires |states[k + 1].l.children| > |states[k].l.children|
    ensures Explained(states, events, k, k + 1, |states[k].l.children|)
    ensures |states[k + 1].l.children| == |states[k].l.children| + 1
  {
    assert StepOk(states, events, k);
  }

  /** The child is left alone, or completed or refused by an ACK of its own. */
  lemma ChildStep(w: World, e: Event, c: nat)
    requires Enabled(w, e) && c < |w.l.children|
    requires w.l.queue != [] ==> w.l.queue[0] < |w.l.children| && w.l.children[w.l.queue[0]].state == ESTABLISHED
    ensures c < |Apply(w, e).l.children|
    ensures var before, after := w.l.children[c], Apply(w, e).l.children[c];
      if e.Ack? && e.child == c && e.cb.flags == 0x10
         && SeqValid(before.rcvNxt, before.rcvWnd, e.cb.seqNum, e.cb.seqEnd) then
        && before.state == SYN_RECV && after.state != SYN_RECV
        && after == before.(rcvNxt := e.cb.seqEnd, sndUna := e.cb.ack, state := after.state)
      else after == before
  {
  }

  lemma QueueEstablished(w: World)
    requires forall c: nat :: Placed(w, c)
    ensures w.l.queue != [] ==> w.l.queue[0] < |w.l.children| && w.l.children[w.l.queue[0]].state == ESTABLISHED
  {
    if w.l.queue != [] {
      assert Placed(w, w.l.queue[0]) && w.l.queue[0] in multiset(w.l.queue);
    }
  }

  lemma ExplainedLater(states: seq<World>, events: seq<Event>, threads: nat, k: nat, t: nat, c: nat)
    requires Run(states, events, threads) && k < t < |events| && Explained(states, events, k, t, c)
    ensures Explained(states, events, k, t + 1, c)
  {
    assert StepOk(states, events, t);
    QueueIsSound(states, events, threads, t);
    QueueEstablished(states[t]);
    ChildStep(states[t], events[t], c);
    var child := states[t].l.children[c];
    if child.state != SYN_RECV {
      var m :| k < m < t && AckTo(events, m, c, events[k].cb.seqEnd)
        && child.rcvNxt == events[m].cb.seqEnd && child.sndUna == events[m].cb.ack;
      assert AckTo(events, m, c, events[k].cb.seqEnd);
    } else if states[t + 1].l.children[c].state != SYN_RECV {
      assert AckTo(events, t, c, events[k].cb.seqEnd);
    }
  }

  /** Over runs, with any number of accepting threads: every child goes back to one SYN, whose addresses it has turned
      round; its own number is one past the initial one, and what it expects follows the SYN, or the ACK that completed
      or refused it. */
  lemma {:induction false} ChildrenAreExplained(states: seq<World>, events: seq<Event>, threads: nat, t: nat, c: nat)
      returns (k: nat)
    requires Run(states, events, threads) && t < |states| && c < |states[t].l.children|
    ensures k < t && Explained(states, events, k, t, c)
  {
    assert t > 0;
    assert StepOk(states, events, t - 1);
    if c < |states[t - 1].l.children| {
      k := ChildrenAreExplained(states, events, threads, t - 1, c);
      ExplainedLater(states, events, threads, k, t - 1, c);
    } else {
      k := t - 1;
      SynExplains(states, events, threads, k);
    }
  }
}
