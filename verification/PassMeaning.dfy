/** What one call of ProcessPackets does, in terms of the packets alone: their limits, their attempts and
    their retries. */
module PassMeaning {
  import opened Relay
  import opened RelayLaws

  /** Out of time, or out of retries. */
  ghost predicate Lapses(net: Net, ctx: Ctx, p: Packet) {
    HasTimedOut(ctx, p) || (!Relayed(net, p) && p.retryCount >= 5)
  }

  ghost predicate Arrives(net: Net, ctx: Ctx, p: Packet) {
    !HasTimedOut(ctx, p) && Relayed(net, p)
  }

  ghost predicate Waits(net: Net, ctx: Ctx, p: Packet) {
    !HasTimedOut(ctx, p) && !Relayed(net, p) && p.retryCount < 5
  }

  ghost function Lapsing(net: Net, ctx: Ctx): Packet -> bool {
    (p: Packet) => Lapses(net, ctx, p)
  }

  ghost function Arriving(net: Net, ctx: Ctx): Packet -> bool {
    (p: Packet) => Arrives(net, ctx, p)
  }

  ghost function Waiting(net: Net, ctx: Ctx): Packet -> bool {
    (p: Packet) => Waits(net, ctx, p)
  }

  /** The packets of a kind, in the order of the queue. */
  ghost function Those(ps: seq<Packet>, kind: Packet -> bool): seq<Packet> {
    if ps == [] then [] else (if kind(ps[0]) then [ps[0]] else []) + Those(ps[1..], kind)
  }

  /** Each packet with one retry more, and otherwise as it was. */
  function Retried(ps: seq<Packet>): (r: seq<Packet>)
    ensures |r| == |ps| && forall i :: 0 <= i < |ps| ==> r[i] == ps[i].(retryCount := ps[i].retryCount + 1)
  {
    seq(|ps|, i requires 0 <= i < |ps| => ps[i].(retryCount := ps[i].retryCount + 1))
  }

  lemma RetriedConcat(a: seq<Packet>, b: seq<Packet>)
    ensures Retried(a + b) == Retried(a) + Retried(b)
  {
  }

  lemma OneDealtWith(net: Net, ctx: Ctx, p: Packet)
    ensures var one := Single(net, ctx, p);
            && one.kept == Retried(if Waits(net, ctx, p) then [p] else [])
            && one.acks == Seqs(if Arrives(net, ctx, p) then [p] else [])
            && one.timeouts == Seqs(if Lapses(net, ctx, p) then [p] else [])
  {
    FateMeaning(net, ctx, p);
    hide FateOf, HasTimedOut, Relayed;
  }

  /** A pass whose context is not cancelled deals with every packet: those that wait are kept, those that
      arrive are acknowledged, those that lapse are timed out, each in the order of the queue. */
  lemma {:induction false} PassInFull(net: Net, ctx: Ctx, ps: seq<Packet>)
    requires forall p :: p in ps ==> !net.halted(p)
    ensures var r := PassOver(net, ctx, ps);
            && r.finished && r.kept == Retried(Those(ps, Waiting(net, ctx)))
            && r.acks == Seqs(Those(ps, Arriving(net, ctx))) && r.timeouts == Seqs(Those(ps, Lapsing(net, ctx)))
    decreases |ps|
  {
    hide Single, Waits, Arrives, Lapses, Retried, Seqs;
    if ps == [] {
      NothingRetried();
    } else {
      var p, rest := ps[0], ps[1..];
      assert ps == [p] + rest && p in ps;
      PassInFull(net, ctx, rest);
      OneDealtWith(net, ctx, p);
      RetriedConcat(if Waits(net, ctx, p) then [p] else [], Those(rest, Waiting(net, ctx)));
      SeqsConcat(if Arrives(net, ctx, p) then [p] else [], Those(rest, Arriving(net, ctx)));
      SeqsConcat(if Lapses(net, ctx, p) then [p] else [], Those(rest, Lapsing(net, ctx)));
    }
  }

  lemma NothingRetried()
    ensures Retried([]) == [] && Seqs([]) == []
  {
  }

  /** The packets before the first at which the context is found cancelled. */
  function Before(net: Net, ps: seq<Packet>): (r: seq<Packet>)
    ensures r <= ps && forall p :: p in r ==> !net.halted(p)
    ensures |r| < |ps| ==> net.halted(ps[|r|])
  {
    if ps == [] || net.halted(ps[0]) then [] else [ps[0]] + Before(net, ps[1..])
  }

  /** A cancelled pass logs what it would have logged for the packets before. */
  lemma {:induction false} CancelledPass(net: Net, ctx: Ctx, ps: seq<Packet>)
    ensures var r, r' := PassOver(net, ctx, ps), PassOver(net, ctx, Before(net, ps));
            r == r'.(finished := |Before(net, ps)| == |ps|)
    decreases |ps|
  {
    hide Single;
    if ps != [] && !net.halted(ps[0]) {
      CancelledPass(net, ctx, ps[1..]);
      var before := Before(net, ps);
      assert before[0] == ps[0] && before[1..] == Before(net, ps[1..]);
    }
  }

  /** One call of ProcessPackets, as it shows on a channel. If the context is not cancelled before any packet of
      its queue, the packets that wait stay, in order and with one retry more, and those that arrive or lapse go
      to the logs. If it is, the queue stays, and the logs grow by the packets before. A queue without packets
      is removed. */
  lemma ProcessMeaning(st: State, order: seq<Channel>, ctx: Ctx, net: Net, ch: Channel)
    requires EachOnce(order, st.pending.Keys)
    ensures var st', queue := PassInOrder(st, order, ctx, net), Queue(st, ch);
            var dealt := Before(net, queue);
            && Queue(st', ch) == (if dealt == queue then Retried(Those(queue, Waiting(net, ctx))) else queue)
            && LogOf(st'.acks, ch) == LogOf(st.acks, ch) + Seqs(Those(dealt, Arriving(net, ctx)))
            && LogOf(st'.timeouts, ch) == LogOf(st.timeouts, ch) + Seqs(Those(dealt, Lapsing(net, ctx)))
            && (ch in st'.pending <==> Queue(st', ch) != [])
  {
    var queue := Queue(st, ch);
    var dealt := Before(net, queue);
    CancelledPass(net, ctx, queue);
    PassInFull(net, ctx, dealt);
    EachAlone(st, order, ctx, net, ch);
    if ch !in order {
      assert queue == [];
      assert Those([], Arriving(net, ctx)) == [] && Those([], Lapsing(net, ctx)) == [];
      assert Those([], Waiting(net, ctx)) == [];
      NothingRetried();
    }
    assert |dealt| == |queue| ==> dealt == queue;
    hide PassOver, Before, Those, Retried, Seqs, PassInOrder;
    SlotParts(PassInOrder(st, order, ctx, net), if ch in order then PassChannel(st, ch, ctx, net) else st, ch);
    LogsGrow(st, ch, ctx, net);
  }

  lemma SlotParts(s: State, t: State, ch: Channel)
    requires SlotOf(s, ch) == SlotOf(t, ch)
    ensures Queue(s, ch) == Queue(t, ch) && (ch in s.pending <==> ch in t.pending)
    ensures LogOf(s.acks, ch) == LogOf(t.acks, ch) && LogOf(s.timeouts, ch) == LogOf(t.timeouts, ch)
  {
  }

  lemma LogsGrow(st: State, ch: Channel, ctx: Ctx, net: Net)
    ensures var st', r := PassChannel(st, ch, ctx, net), PassOver(net, ctx, Queue(st, ch));
            && LogOf(st'.acks, ch) == LogOf(st.acks, ch) + r.acks
            && LogOf(st'.timeouts, ch) == LogOf(st.timeouts, ch) + r.timeouts
            && Queue(st', ch) == (if r.finished then r.kept else Queue(st, ch))
            && (ch in st'.pending <==> if r.finished then r.kept != [] else ch in st.pending)
  {
    hide PassOver;
  }
}
