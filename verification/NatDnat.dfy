/** Connections from outside to a configured endpoint, and when a flow counts as finished, told from the packets
    (08-nat/nat.c). */
module NatDnat {
  import opened MachineInts
  import opened Options
  import opened NatTable
  import opened NatTheorems
  import opened NatRoundTrip
  import opened NatLife

  // ---- Where a packet from outside goes ----

  /** Rule `r` is the first for the endpoint. */
  predicate FirstRule(rules: seq<Rule>, r: nat, e: Endpoint) {
    r < |rules| && rules[r].external == e && forall j :: 0 <= j < r ==> rules[j].external != e
  }

  predicate FirstMapping(b: seq<Mapping>, k: nat, e: Endpoint) {
    k < |b| && b[k].external == e && forall j :: 0 <= j < k ==> b[j].external != e
  }

  /** A packet to a known external endpoint goes to the internal endpoint of its first mapping. */
  lemma KnownIsForwarded(n: Nat, p: Packet, now: int, k: nat)
    requires Shaped(n) && FirstMapping(n.table[Bucket(p.src)], k, p.dst)
    ensures TranslateIn(n, p, now).1 == Some(p.(dst := n.table[Bucket(p.src)][k].internal))
  {
    assert FindExternal(n.table[Bucket(p.src)], p.dst) == Some(k);
  }

  /** Any other goes to the internal endpoint of the first rule with its destination, and is dropped exactly when there
      is none. */
  lemma UnknownFollowsRules(n: Nat, p: Packet, now: int)
    requires Shaped(n) && forall k :: 0 <= k < |n.table[Bucket(p.src)]| ==> n.table[Bucket(p.src)][k].external != p.dst
    ensures TranslateIn(n, p, now).1 == None <==> forall r :: 0 <= r < |n.rules| ==> n.rules[r].external != p.dst
    ensures forall r: nat {:trigger FirstRule(n.rules, r, p.dst)} :: FirstRule(n.rules, r, p.dst) ==>
      TranslateIn(n, p, now).1 == Some(p.(dst := n.rules[r].internal))
  {
    assert FindExternal(n.table[Bucket(p.src)], p.dst) == None;
    forall r: nat | FirstRule(n.rules, r, p.dst) ensures FindRule(n.rules, p.dst) == Some(r) {
    }
  }

  // ---- While the mapping lives ----

  /** Event `c` is the first packet of its list to the endpoint of rule `r`. */
  ghost predicate Opens(states: seq<Nat>, events: seq<Event>, c: nat, r: nat) {
    && |states| == |events| + 1 && c < |events| && events[c].In? && Shaped(states[c])
    && FirstRule(states[c].rules, r, events[c].p.dst) && events[c].p.dst.port != 0
    && forall k :: 0 <= k < |states[c].table[Bucket(events[c].p.src)]| ==>
         states[c].table[Bucket(events[c].p.src)][k].external != events[c].p.dst
  }

  /** It makes a mapping with the endpoints of the rule, as the last of its list. */
  lemma OpeningMaps(n: Nat, p: Packet, now: int, r: nat)
    requires Shaped(n) && FirstRule(n.rules, r, p.dst)
    requires forall k :: 0 <= k < |n.table[Bucket(p.src)]| ==> n.table[Bucket(p.src)][k].external != p.dst
    ensures var b := n.table[Bucket(p.src)];
      TranslateIn(n, p, now).0.table[Bucket(p.src)]
        == b + [Mapping(p.src, n.rules[r].internal, p.dst, now, NoteIncoming(NewConnection, p))]
  {
    var b := n.table[Bucket(p.src)];
    assert FindExternal(b, p.dst) == None && FindRule(n.rules, p.dst) == Some(r);
  }

  lemma OpeningCreates(states: seq<Nat>, events: seq<Event>, c: nat, r: nat)
    requires Run(states, events) && Opens(states, events, c, r)
    ensures Created(states, events, c, Bucket(events[c].p.src), states[c].rules[r].internal, events[c].p.dst)
    ensures (forall k :: 0 <= k < |states[c].table[Bucket(events[c].p.src)]| ==>
               states[c].table[Bucket(events[c].p.src)][k].internal != states[c].rules[r].internal) ==>
      Serves(states[c + 1].table[Bucket(events[c].p.src)], states[c].rules[r].internal, events[c].p.dst)
  {
    assert StepOk(states, events, c);
    var p, internal := events[c].p, states[c].rules[r].internal;
    OpeningMaps(states[c], p, events[c].now, r);
    var b, after := states[c].table[Bucket(p.src)], states[c + 1].table[Bucket(p.src)];
    assert FindExternal(b, p.dst) == None && after[|b|].external == p.dst;
    assert FindExternal(after, p.dst) == Some(|b|);
    if forall k :: 0 <= k < |b| ==> b[k].internal != internal {
      FindIsFirst(after, internal, |b|);
    }
  }

  ghost predicate SparedUntil(states: seq<Nat>, events: seq<Event>, c: nat, b: nat, h: nat, ext: Endpoint)
    requires b <= |events| <= |states|
  {
    forall j {:trigger Spared(states, events, c, j, h, ext)} :: c < j < b ==> Spared(states, events, c, j, h, ext)
  }

  /** From the first packet to a configured endpoint until a sweep ends its mapping, every packet of the list to that
      endpoint reaches the server. */
  lemma DnatReaches(states: seq<Nat>, events: seq<Event>, c: nat, r: nat, b: nat, q: Packet, now: int)
    requires Run(states, events) && OutsidePool(states[0].rules) && Opens(states, events, c, r) && c < b < |states|
    requires SparedUntil(states, events, c, b, Bucket(events[c].p.src), events[c].p.dst)
    requires Bucket(q.src) == Bucket(events[c].p.src) && q.dst == events[c].p.dst
    ensures states[c].rules == states[0].rules && Shaped(states[b])
    ensures TranslateIn(states[b], q, now).1 == Some(q.(dst := states[0].rules[r].internal))
  {
    var h, ext := Bucket(events[c].p.src), events[c].p.dst;
    OpeningCreates(states, events, c, r);
    PortsConserved(states, events, c);
    MappingLives(states, events, c, b, h, states[c].rules[r].internal, ext);
    KnownIsForwarded(states[b], q, now, FindExternal(states[b].table[h], ext).value);
  }

  /** The server's answers leave as the configured endpoint exactly as long as no older mapping of the list belongs to
      the server; otherwise they leave as the endpoint of the oldest one. */
  lemma AnswersLeaveIff(n: Nat, h: nat, k: nat, q: Packet, now: int)
    requires Shaped(n) && h == Bucket(q.dst) && k < |n.table[h]| && FirstMapping(n.table[h], k, n.table[h][k].external)
    requires n.table[h][k].internal == q.src
    ensures TranslateOut(n, q, now).1 == Some(q.(src := n.table[h][k].external)) <==>
      forall j :: 0 <= j < k ==> n.table[h][j].internal != q.src
  {
    var f := FindInternal(n.table[h], q.src).value;
    assert f <= k && TranslateOut(n, q, now).1 == Some(q.(src := n.table[h][f].external));
  }

  /** In particular when the server had none when the mapping was made, until it is swept. */
  lemma DnatAnswers(states: seq<Nat>, events: seq<Event>, c: nat, r: nat, b: nat, q: Packet, now: int)
    requires Run(states, events) && OutsidePool(states[0].rules) && Opens(states, events, c, r) && c < b < |states|
    requires SparedUntil(states, events, c, b, Bucket(events[c].p.src), events[c].p.dst)
    requires forall k :: 0 <= k < |states[c].table[Bucket(events[c].p.src)]| ==>
      states[c].table[Bucket(events[c].p.src)][k].internal != states[c].rules[r].internal
    requires Bucket(q.dst) == Bucket(events[c].p.src) && q.src == states[c].rules[r].internal
    ensures Shaped(states[b]) && TranslateOut(states[b], q, now).1 == Some(q.(src := events[c].p.dst))
  {
    OpeningCreates(states, events, c, r);
    forall i | c < i < b ensures Spared(states, events, c, i, Bucket(events[c].p.src), events[c].p.dst) {
    }
    ServesWhileSpared(states, events, c, c, b, Bucket(events[c].p.src), states[c].rules[r].internal, events[c].p.dst);
  }

  // ---- When a flow is finished ----

  /** Event `k` is a packet from outside to the mapping, or one from inside that leaves through it. */
  predicate FromOutside(events: seq<Event>, k: nat, h: nat, ext: Endpoint)
    requires k < |events|
  {
    events[k].In? && Bucket(events[k].p.src) == h && events[k].p.dst == ext
  }

  predicate FromInside(states: seq<Nat>, events: seq<Event>, k: nat, h: nat, ext: Endpoint)
    requires k < |events| <= |states|
  {
    && events[k].Out? && Shaped(states[k]) && Bucket(events[k].p.dst) == h
    && TranslateOut(states[k], events[k].p, events[k].now).1 == Some(events[k].p.(src := ext))
  }

  /** What event `j - 1` does to the statistics. */
  lemma StatsStep(states: seq<Nat>, events: seq<Event>, c: nat, j: nat, h: nat, ext: Endpoint)
    requires c < j <= |events| <= |states|
    ensures var s := StatsAt(states, events, c, j - 1, h, ext);
      StatsAt(states, events, c, j, h, ext)
        == if FromOutside(events, j - 1, h, ext) then NoteIncoming(s, events[j - 1].p)
           else if FromInside(states, events, j - 1, h, ext) then NoteOutgoing(s, events[j - 1].p)
           else s
    ensures !(FromOutside(events, j - 1, h, ext) && FromInside(states, events, j - 1, h, ext))
  {
  }

  /** Some packet from inside was a bare FIN. */
  ghost predicate InsideDone(states: seq<Nat>, events: seq<Event>, c: nat, j: nat, h: nat, ext: Endpoint)
    requires j <= |events| <= |states|
  {
    exists k :: c <= k < j && FromInside(states, events, k, h, ext) && events[k].p.flags == 0x01
  }

  /** The latest packet from outside was a bare FIN. */
  ghost predicate OutsideDone(events: seq<Event>, c: nat, j: nat, h: nat, ext: Endpoint)
    requires j <= |events|
  {
    exists k :: c <= k < j && FromOutside(events, k, h, ext) && events[k].p.flags == 0x01
      && NoneFromOutside(events, k + 1, j, h, ext)
  }

  predicate NoneFromOutside(events: seq<Event>, a: nat, j: nat, h: nat, ext: Endpoint)
    requires j <= |events|
  {
    forall m {:trigger FromOutside(events, m, h, ext)} :: a <= m < j ==> !FromOutside(events, m, h, ext)
  }

  lemma InsideDoneStep(states: seq<Nat>, events: seq<Event>, c: nat, j: nat, h: nat, ext: Endpoint)
    requires c < j <= |events| <= |states|
    ensures InsideDone(states, events, c, j, h, ext) <==>
      InsideDone(states, events, c, j - 1, h, ext)
      || (FromInside(states, events, j - 1, h, ext) && events[j - 1].p.flags == 0x01)
  {
  }

  lemma OutsideStaysDone(events: seq<Event>, c: nat, j: nat, h: nat, ext: Endpoint)
    requires c < j <= |events| && !FromOutside(events, j - 1, h, ext)
    ensures OutsideDone(events, c, j, h, ext) <==> OutsideDone(events, c, j - 1, h, ext)
  {
    if OutsideDone(events, c, j - 1, h, ext) {
      var k: nat :| c <= k < j - 1 && FromOutside(events, k, h, ext) && events[k].p.flags == 0x01
        && NoneFromOutside(events, k + 1, j - 1, h, ext);
      assert NoneFromOutside(events, k + 1, j, h, ext);
    }
    if OutsideDone(events, c, j, h, ext) {
      var k: nat :| c <= k < j && FromOutside(events, k, h, ext) && events[k].p.flags == 0x01
        && NoneFromOutside(events, k + 1, j, h, ext);
      assert NoneFromOutside(events, k + 1, j - 1, h, ext);
    }
  }

  lemma OutsideDoneStep(events: seq<Event>, c: nat, j: nat, h: nat, ext: Endpoint)
    requires c < j <= |events|
    ensures OutsideDone(events, c, j, h, ext) <==>
      if FromOutside(events, j - 1, h, ext) then events[j - 1].p.flags == 0x01
      else OutsideDone(events, c, j - 1, h, ext)
  {
    if !FromOutside(events, j - 1, h, ext) {
      OutsideStaysDone(events, c, j, h, ext);
    } else {
      assert events[j - 1].p.flags == 0x01 ==> NoneFromOutside(events, j, j, h, ext);
      if OutsideDone(events, c, j, h, ext) {
        var k: nat :| c <= k < j && FromOutside(events, k, h, ext) && events[k].p.flags == 0x01
          && NoneFromOutside(events, k + 1, j, h, ext);
        assert k == j - 1;
      }
    }
  }

  lemma {:induction false} FinsMean(states: seq<Nat>, events: seq<Event>, c: nat, j: nat, h: nat, ext: Endpoint)
    requires c <= j <= |events| <= |states|
    ensures StatsAt(states, events, c, j, h, ext).internalFin <==> InsideDone(states, events, c, j, h, ext)
    ensures StatsAt(states, events, c, j, h, ext).externalFin <==> OutsideDone(events, c, j, h, ext)
  {
    if c < j {
      FinsMean(states, events, c, j - 1, h, ext);
      StatsStep(states, events, c, j, h, ext);
      InsideDoneStep(states, events, c, j, h, ext);
      OutsideDoneStep(events, c, j, h, ext);
    }
  }

  /** The sequence number is 0 or some bare ACK from inside acknowledges at least it. */
  ghost predicate AckedInside(states: seq<Nat>, events: seq<Event>, c: nat, j: nat, h: nat, ext: Endpoint, s: u32)
    requires j <= |events| <= |states|
  {
    s == 0 || exists k :: c <= k < j && FromInside(states, events, k, h, ext) && events[k].p.flags == 0x10
                          && events[k].p.ack >= s
  }

  ghost predicate AckedOutside(events: seq<Event>, c: nat, j: nat, h: nat, ext: Endpoint, s: u32)
    requires j <= |events|
  {
    s == 0 || exists k :: c <= k < j && FromOutside(events, k, h, ext) && events[k].p.flags == 0x10
                          && events[k].p.ack >= s
  }

  /** What a packet does to the numbers that have been acknowledged and sent. */
  lemma NoteMeans(s: Connection, p: Packet, x: u32)
    ensures x <= NoteIncoming(s, p).externalAck <==> x <= s.externalAck || (p.flags == 0x10 && p.ack >= x)
    ensures x <= NoteOutgoing(s, p).internalAck <==> x <= s.internalAck || (p.flags == 0x10 && p.ack >= x)
    ensures NoteIncoming(s, p).externalSeqEnd <= x <==> s.externalSeqEnd <= x && p.seqNum <= x
    ensures NoteOutgoing(s, p).internalSeqEnd <= x <==> s.internalSeqEnd <= x && p.seqNum <= x
    ensures NoteIncoming(s, p).internalAck == s.internalAck && NoteIncoming(s, p).internalSeqEnd == s.internalSeqEnd
    ensures NoteOutgoing(s, p).externalAck == s.externalAck && NoteOutgoing(s, p).externalSeqEnd == s.externalSeqEnd
  {
  }

  /** The same for event `j - 1`. */
  lemma StepMeans(states: seq<Nat>, events: seq<Event>, c: nat, j: nat, h: nat, ext: Endpoint, x: u32)
    requires c < j <= |events| <= |states|
    ensures Steps(states, events, j, h, ext, StatsAt(states, events, c, j - 1, h, ext),
                  StatsAt(states, events, c, j, h, ext), x)
  {
    StatsStep(states, events, c, j, h, ext);
    if !events[j - 1].SweepAt? {
      NoteMeans(StatsAt(states, events, c, j - 1, h, ext), events[j - 1].p, x);
    }
  }

  ghost predicate AcksAre(states: seq<Nat>, events: seq<Event>, c: nat, j: nat, h: nat, ext: Endpoint, s: Connection,
                          x: u32)
    requires j <= |events| <= |states|
  {
    && (x <= s.internalAck <==> AckedInside(states, events, c, j, h, ext, x))
    && (x <= s.externalAck <==> AckedOutside(events, c, j, h, ext, x))
  }

  /** `t` is `s` after event `j - 1`, as far as the numbers go that are compared with `x`. */
  predicate Steps(states: seq<Nat>, events: seq<Event>, j: nat, h: nat, ext: Endpoint, s: Connection, t: Connection,
                  x: u32)
    requires 0 < j <= |events| <= |states|
  {
    var outside, inside := FromOutside(events, j - 1, h, ext), FromInside(states, events, j - 1, h, ext);
    && (x <= t.externalAck <==>
          x <= s.externalAck || (outside && events[j - 1].p.flags == 0x10 && events[j - 1].p.ack >= x))
    && (x <= t.internalAck <==>
          x <= s.internalAck || (inside && events[j - 1].p.flags == 0x10 && events[j - 1].p.ack >= x))
    && (t.externalSeqEnd <= x <==> s.externalSeqEnd <= x && (outside ==> events[j - 1].p.seqNum <= x))
    && (t.internalSeqEnd <= x <==> s.internalSeqEnd <= x && (inside ==> events[j - 1].p.seqNum <= x))
  }

  lemma AcksStep(states: seq<Nat>, events: seq<Event>, c: nat, j: nat, h: nat, ext: Endpoint, s: Connection,
                 t: Connection, x: u32)
    requires c < j <= |events| <= |states| && Steps(states, events, j, h, ext, s, t, x)
    requires AcksAre(states, events, c, j - 1, h, ext, s, x)
    ensures AcksAre(states, events, c, j, h, ext, t, x)
  {
    InsideAckStep(states, events, c, j, h, ext, x);
    OutsideAckStep(events, c, j, h, ext, x);
  }

  /** Every sequence number from outside is at most `a`, and so from inside. */
  predicate OutsideSent(events: seq<Event>, c: nat, j: nat, h: nat, ext: Endpoint, a: u32)
    requires j <= |events|
  {
    forall k {:trigger FromOutside(events, k, h, ext)} :: c <= k < j && FromOutside(events, k, h, ext) ==>
      events[k].p.seqNum <= a
  }

  predicate InsideSent(states: seq<Nat>, events: seq<Event>, c: nat, j: nat, h: nat, ext: Endpoint, a: u32)
    requires j <= |events| <= |states|
  {
    forall k {:trigger FromInside(states, events, k, h, ext)} :: c <= k < j && FromInside(states, events, k, h, ext) ==>
      events[k].p.seqNum <= a
  }

  predicate SeqsAre(states: seq<Nat>, events: seq<Event>, c: nat, j: nat, h: nat, ext: Endpoint, s: Connection, x: u32)
    requires j <= |events| <= |states|
  {
    && (s.externalSeqEnd <= x <==> OutsideSent(events, c, j, h, ext, x))
    && (s.internalSeqEnd <= x <==> InsideSent(states, events, c, j, h, ext, x))
  }

  lemma NothingYet(states: seq<Nat>, events: seq<Event>, c: nat, h: nat, ext: Endpoint, x: u32)
    requires c <= |events| <= |states|
    ensures AcksAre(states, events, c, c, h, ext, StatsAt(states, events, c, c, h, ext), x)
    ensures SeqsAre(states, events, c, c, h, ext, StatsAt(states, events, c, c, h, ext), x)
  {
    assert StatsAt(states, events, c, c, h, ext) == NewConnection;
  }

  lemma {:induction false} AcksMean(states: seq<Nat>, events: seq<Event>, c: nat, j: nat, h: nat, ext: Endpoint, x: u32)
    requires c <= j <= |events| <= |states|
    ensures AcksAre(states, events, c, j, h, ext, StatsAt(states, events, c, j, h, ext), x)
  {
    if c == j {
      NothingYet(states, events, c, h, ext, x);
    } else {
      AcksMean(states, events, c, j - 1, h, ext, x);
      StepMeans(states, events, c, j, h, ext, x);
      AcksStep(states, events, c, j, h, ext, StatsAt(states, events, c, j - 1, h, ext),
               StatsAt(states, events, c, j, h, ext), x);
    }
  }

  lemma InsideAckStep(states: seq<Nat>, events: seq<Event>, c: nat, j: nat, h: nat, ext: Endpoint, s: u32)
    requires c < j <= |events| <= |states|
    ensures AckedInside(states, events, c, j, h, ext, s) <==>
      AckedInside(states, events, c, j - 1, h, ext, s)
      || (FromInside(states, events, j - 1, h, ext) && events[j - 1].p.flags == 0x10 && events[j - 1].p.ack >= s)
  {
  }

  lemma OutsideAckStep(events: seq<Event>, c: nat, j: nat, h: nat, ext: Endpoint, s: u32)
    requires c < j <= |events|
    ensures AckedOutside(events, c, j, h, ext, s) <==>
      AckedOutside(events, c, j - 1, h, ext, s)
      || (FromOutside(events, j - 1, h, ext) && events[j - 1].p.flags == 0x10 && events[j - 1].p.ack >= s)
  {
  }

  lemma OutsideSentStep(events: seq<Event>, c: nat, j: nat, h: nat, ext: Endpoint, a: u32)
    requires c < j <= |events|
    ensures OutsideSent(events, c, j, h, ext, a) <==>
      OutsideSent(events, c, j - 1, h, ext, a)
      && (FromOutside(events, j - 1, h, ext) ==> events[j - 1].p.seqNum <= a)
  {
  }

  lemma InsideSentStep(states: seq<Nat>, events: seq<Event>, c: nat, j: nat, h: nat, ext: Endpoint, a: u32)
    requires c < j <= |events| <= |states|
    ensures InsideSent(states, events, c, j, h, ext, a) <==>
      InsideSent(states, events, c, j - 1, h, ext, a)
      && (FromInside(states, events, j - 1, h, ext) ==> events[j - 1].p.seqNum <= a)
  {
  }

  lemma SeqsStep(states: seq<Nat>, events: seq<Event>, c: nat, j: nat, h: nat, ext: Endpoint, s: Connection,
                 t: Connection, x: u32)
    requires c < j <= |events| <= |states| && Steps(states, events, j, h, ext, s, t, x)
    requires SeqsAre(states, events, c, j - 1, h, ext, s, x)
    ensures SeqsAre(states, events, c, j, h, ext, t, x)
  {
    OutsideSentStep(events, c, j, h, ext, x);
    InsideSentStep(states, events, c, j, h, ext, x);
  }

  lemma {:induction false} SeqsNext(states: seq<Nat>, events: seq<Event>, c: nat, j: nat, h: nat, ext: Endpoint, x: u32)
    requires c < j <= |events| <= |states|
    requires SeqsAre(states, events, c, j - 1, h, ext, StatsAt(states, events, c, j - 1, h, ext), x)
    ensures SeqsAre(states, events, c, j, h, ext, StatsAt(states, events, c, j, h, ext), x)
  {
    var s, t := StatsAt(states, events, c, j - 1, h, ext), StatsAt(states, events, c, j, h, ext);
    StepMeans(states, events, c, j, h, ext, x);
    SeqsStep(states, events, c, j, h, ext, s, t, x);
  }

  lemma {:induction false} SeqsMean(states: seq<Nat>, events: seq<Event>, c: nat, j: nat, h: nat, ext: Endpoint, x: u32)
    requires c <= j <= |events| <= |states|
    ensures SeqsAre(states, events, c, j, h, ext, StatsAt(states, events, c, j, h, ext), x)
  {
    if c == j {
      NothingYet(states, events, c, h, ext, x);
    } else {
      SeqsMean(states, events, c, j - 1, h, ext, x);
      SeqsNext(states, events, c, j, h, ext, x);
    }
  }

  /** The flow is done: a bare FIN from inside, a bare FIN as the latest packet from outside, and each side has
      acknowledged at least every sequence number of the other with a bare ACK. */
  ghost predicate FlowDone(states: seq<Nat>, events: seq<Event>, c: nat, j: nat, h: nat, ext: Endpoint)
    requires j <= |events| <= |states|
  {
    && InsideDone(states, events, c, j, h, ext) && OutsideDone(events, c, j, h, ext)
    && (forall k {:trigger FromOutside(events, k, h, ext)} :: c <= k < j && FromOutside(events, k, h, ext) ==>
          AckedInside(states, events, c, j, h, ext, events[k].p.seqNum))
    && (forall k {:trigger FromInside(states, events, k, h, ext)} :: c <= k < j && FromInside(states, events, k, h, ext)
          ==> AckedOutside(events, c, j, h, ext, events[k].p.seqNum))
  }

  lemma FinishedMeans(states: seq<Nat>, events: seq<Event>, c: nat, j: nat, h: nat, ext: Endpoint)
    requires c <= j <= |events| <= |states|
    ensures IsFinished(StatsAt(states, events, c, j, h, ext)) <==> FlowDone(states, events, c, j, h, ext)
  {
    var s := StatsAt(states, events, c, j, h, ext);
    FinsMean(states, events, c, j, h, ext);
    SeqsMean(states, events, c, j, h, ext, s.internalAck);
    SeqsMean(states, events, c, j, h, ext, s.externalAck);
    forall k | c <= k < j
      ensures events[k].In? ==> (events[k].p.seqNum <= s.internalAck
        <==> AckedInside(states, events, c, j, h, ext, events[k].p.seqNum))
      ensures events[k].Out? ==> (events[k].p.seqNum <= s.externalAck
        <==> AckedOutside(events, c, j, h, ext, events[k].p.seqNum))
    {
      if !events[k].SweepAt? {
        AcksMean(states, events, c, j, h, ext, events[k].p.seqNum);
      }
    }
  }

  /** The exact life of a mapping in terms of the packets: a sweep leaves it if and only if at most 60 seconds have
      passed since its creation and the flow is not done. */
  lemma SweepEndsFlow(states: seq<Nat>, events: seq<Event>, c: nat, j: nat, h: nat, internal: Endpoint, ext: Endpoint)
    requires Run(states, events) && OutsidePool(states[0].rules) && Created(states, events, c, h, internal, ext)
    requires c < j < |events| && events[j].SweepAt?
    requires forall i :: c < i < j && events[i].SweepAt? ==>
      events[i].now - events[c].now <= 60 && !FlowDone(states, events, c, i, h, ext)
    ensures Shaped(states[j + 1])
    ensures FindExternal(states[j + 1].table[h], ext).Some? <==>
      events[j].now - events[c].now <= 60 && !FlowDone(states, events, c, j, h, ext)
  {
    forall i | c < i < j ensures Spared(states, events, c, i, h, ext) {
      FinishedMeans(states, events, c, i, h, ext);
    }
    SweepEndsMapping(states, events, c, j, h, internal, ext);
    FinishedMeans(states, events, c, j, h, ext);
  }
}
