/** What the relay queue keeps over whole runs. */
module RelayLaws {
  import opened Bytes
  import opened Options
  import opened Relay

  // ---------- what is accepted ----------

  /** In an ordered state a well-formed packet is accepted exactly when its limits have not elapsed and
      its sequence number is above every pending one. */
  lemma AcceptanceMeaning(st: State, ctx: Ctx, p: Packet)
    requires Ordered(st)
    ensures Answer(st, ctx, p) == Accepted <==>
              && Validate(p) == Accepted && !HasTimedOut(ctx, p)
              && forall q :: q in Queue(st, ChannelOf(p)) ==> q.sequence < p.sequence
  {
    var queue := Queue(st, ChannelOf(p));
    if queue != [] {
      var s, n := Seqs(queue), |queue| - 1;
      assert queue[n] in queue;
      assert forall i :: 0 <= i < n ==> s[i] < s[n];
      if queue[n].sequence < p.sequence {
        assert forall i :: 0 <= i <= n ==> s[i] < p.sequence;
        assert forall q :: q in queue ==> q.sequence < p.sequence;
      }
    }
  }

  /** The limits mean what they say while they fit a signed number; a larger one has always elapsed. */
  lemma SignedLimits(ctx: Ctx, p: Packet)
    requires ctx.height >= 0 && ctx.nanos >= 0
    ensures p.timeoutHeight.revisionHeight < TWO_63 && p.timeoutTimestamp < TWO_63 ==>
              (HasTimedOut(ctx, p) <==>
                 || (p.timeoutHeight != Height(0, 0) && ctx.height >= p.timeoutHeight.revisionHeight)
                 || (p.timeoutTimestamp != 0 && ctx.nanos >= p.timeoutTimestamp))
    ensures p.timeoutHeight.revisionHeight >= TWO_63 || p.timeoutTimestamp >= TWO_63 ==> HasTimedOut(ctx, p)
  {
  }

  /** A packet lacks one of its fields: a port, a channel or a chain at either end, or its data. */
  predicate Incomplete(p: Packet) {
    || p.sourcePort == [] || p.sourceChan == [] || p.sourceChainID == []
    || p.destPort == [] || p.destChan == [] || p.destChainID == [] || p.data == None
  }

  /** Which answer a packet gets: its number and fields are looked at first, then its limits, then the queue of
      its channel. */
  lemma AnswerReasons(st: State, ctx: Ctx, p: Packet)
    ensures var r, queue := Answer(st, ctx, p), Queue(st, p.sourcePort + "/" + p.sourceChan);
            var wellFormed := p.sequence > 0 && !Incomplete(p);
            var pending := exists q :: q in queue && q.sequence == p.sequence;
            var behind := queue != [] && p.sequence < queue[|queue| - 1].sequence;
            && (r == InvalidSequence <==> p.sequence == 0)
            && (r == MissingField <==> p.sequence > 0 && Incomplete(p))
            && (r == AlreadyTimedOut <==> wellFormed && HasTimedOut(ctx, p))
            && (r == Duplicate <==> wellFormed && !HasTimedOut(ctx, p) && pending)
            && (r == OutOfOrder <==> wellFormed && !HasTimedOut(ctx, p) && !pending && behind)
            && (r == Accepted <==> wellFormed && !HasTimedOut(ctx, p) && !pending && !behind)
  {
    hide HasTimedOut;
    var queue := Queue(st, ChannelOf(p));
    assert p.sequence in Seqs(queue) <==> exists q :: q in queue && q.sequence == p.sequence by {
      SequencesOf(queue, p.sequence);
    }
    if queue != [] {
      assert queue[|queue| - 1] in queue;
    }
  }

  lemma SequencesOf(ps: seq<Packet>, s: uint64)
    ensures s in Seqs(ps) <==> exists q :: q in ps && q.sequence == s
  {
    if s in Seqs(ps) {
      var i :| 0 <= i < |ps| && Seqs(ps)[i] == s;
      assert ps[i] in ps;
    } else {
      forall q | q in ps
        ensures q.sequence != s
      {
        var i :| 0 <= i < |ps| && ps[i] == q;
        assert Seqs(ps)[i] == q.sequence;
      }
    }
  }

  /** What the middleware queues is always refused: its packets name no chains. */
  lemma WithoutChainsRefused(st: State, ctx: Ctx, p: Packet)
    requires p.sourceChainID == [] || p.destChainID == []
    ensures Answer(st, ctx, p) != Accepted
  {
  }

  /** A queued packet keeps its number, ends, data, limits and retries. It becomes pending as of now. Nothing
      else changes. */
  lemma QueuedAsGiven(st: State, ctx: Ctx, p: Packet, ch: Channel)
    ensures var st', own := Enqueued(st, ctx, p), p.sourcePort + "/" + p.sourceChan;
            && st'.acks == st.acks && st'.timeouts == st.timeouts
            && (ch != own ==> Queue(st', ch) == Queue(st, ch))
            && |Queue(st', own)| == |Queue(st, own)| + 1 && Queue(st, own) <= Queue(st', own)
            && var q := Queue(st', own)[|Queue(st, own)|];
               && q.sequence == p.sequence && q.data == p.data && q.retryCount == p.retryCount
               && q.sourcePort == p.sourcePort && q.sourceChan == p.sourceChan && q.sourceChainID == p.sourceChainID
               && q.destPort == p.destPort && q.destChan == p.destChan && q.destChainID == p.destChainID
               && q.timeoutHeight == p.timeoutHeight && q.timeoutTimestamp == p.timeoutTimestamp
               && q.lastRetry == p.lastRetry && q.status == Pending && q.firstAttempt == ctx.nanos
  {
  }

  // ---------- what one pass does to one queue ----------

  /** Every sequence number a pass accounts for. */
  function Total(r: Pass): multiset<uint64> {
    multiset(Seqs(r.kept)) + multiset(r.acks) + multiset(r.timeouts)
  }

  lemma SeqsConcat(a: seq<Packet>, b: seq<Packet>)
    ensures Seqs(a + b) == Seqs(a) + Seqs(b)
  {
  }

  lemma JoinTotal(a: Pass, b: Pass)
    ensures Total(Joined(a, b)) == Total(a) + Total(b)
  {
    SeqsConcat(a.kept, b.kept);
  }

  lemma SingleTotal(net: Net, ctx: Ctx, p: Packet)
    ensures Total(Single(net, ctx, p)) == multiset{p.sequence}
  {
    var one := Single(net, ctx, p);
    if one.kept != [] {
      assert Seqs(one.kept) == [p.sequence];
    }
  }

  /** A pass that gets to the end of its queue puts every packet in exactly one place. */
  lemma {:induction false} PassConserves(net: Net, ctx: Ctx, ps: seq<Packet>)
    requires PassOver(net, ctx, ps).finished
    ensures Total(PassOver(net, ctx, ps)) == multiset(Seqs(ps))
    decreases |ps|
  {
    hide Total, Joined, Single;
    if ps == [] {
      assert Total(Pass(true, [], [], [], 0)) == multiset{} by { TotalNothing(); }
    } else {
      JoinFinished(Single(net, ctx, ps[0]), PassOver(net, ctx, ps[1..]));
      PassConserves(net, ctx, ps[1..]);
      SingleTotal(net, ctx, ps[0]);
      JoinTotal(Single(net, ctx, ps[0]), PassOver(net, ctx, ps[1..]));
      assert Seqs(ps) == [ps[0].sequence] + Seqs(ps[1..]);
    }
  }

  lemma TotalNothing()
    ensures Total(Pass(true, [], [], [], 0)) == multiset{}
  {
  }

  lemma JoinFinished(a: Pass, b: Pass)
    ensures Joined(a, b).finished == b.finished
  {
  }

  ghost predicate Above(s: seq<uint64>, low: int) {
    forall i :: 0 <= i < |s| ==> low < s[i]
  }

  /** Each log of a pass, and what it keeps, is strictly increasing when the queue was. */
  lemma {:induction false} PassKeepsOrder(net: Net, ctx: Ctx, ps: seq<Packet>, low: int)
    requires Increasing(Seqs(ps)) && Above(Seqs(ps), low)
    ensures var r := PassOver(net, ctx, ps);
            && Increasing(Seqs(r.kept)) && Increasing(r.acks) && Increasing(r.timeouts)
            && Above(Seqs(r.kept), low) && Above(r.acks, low) && Above(r.timeouts, low)
    decreases |ps|
  {
    if ps != [] && !net.halted(ps[0]) {
      var s := ps[0].sequence;
      assert Seqs(ps)[0] == s && Seqs(ps[1..]) == Seqs(ps)[1..];
      PassKeepsOrder(net, ctx, ps[1..], s);
      var one, rest := Single(net, ctx, ps[0]), PassOver(net, ctx, ps[1..]);
      SeqsConcat(one.kept, rest.kept);
      AtMostOne(Seqs(one.kept), Seqs(rest.kept), low, s);
      AtMostOne(one.acks, rest.acks, low, s);
      AtMostOne(one.timeouts, rest.timeouts, low, s);
    }
  }

  lemma AtMostOne(one: seq<uint64>, rest: seq<uint64>, low: int, s: uint64)
    requires low < s && (one == [] || one == [s]) && Increasing(rest) && Above(rest, s)
    ensures Increasing(one + rest) && Above(one + rest, low)
  {
  }

  /** A packet is acknowledged only if its limits had not elapsed and an attempt for it succeeded. */
  lemma {:induction false} AckedInTime(net: Net, ctx: Ctx, ps: seq<Packet>, s: uint64)
    requires s in PassOver(net, ctx, ps).acks
    ensures exists p :: p in ps && p.sequence == s && !HasTimedOut(ctx, p) && Attempts(net, p, 0).ok
    decreases |ps|
  {
    if s in Single(net, ctx, ps[0]).acks {
      assert ps[0] in ps;
    } else {
      AckedInTime(net, ctx, ps[1..], s);
    }
  }

  /** Attempt k succeeds, and no check from attempt a up to it finds the context cancelled. */
  ghost predicate Reached(net: Net, p: Packet, a: nat, k: nat) {
    net.relays(p, k) && forall j: nat :: a <= j <= k ==> !net.stopped(p, j)
  }

  /** relayWithRetry succeeds exactly when some attempt does before the context is found cancelled, and
      calls the relay function once per attempt made. */
  lemma {:induction false} AttemptsMeaning(net: Net, p: Packet, a: nat)
    requires a <= MAX_RETRIES + 1
    ensures Attempts(net, p, a).ok <==> exists k: nat :: a <= k <= MAX_RETRIES && Reached(net, p, a, k)
    ensures Attempts(net, p, a).calls <= MAX_RETRIES + 1 - a
    decreases MAX_RETRIES + 1 - a
  {
    if a <= MAX_RETRIES {
      AttemptsMeaning(net, p, a + 1);
      if Attempts(net, p, a + 1).ok && !net.stopped(p, a) {
        var k: nat :| a + 1 <= k <= MAX_RETRIES && Reached(net, p, a + 1, k);
        assert Reached(net, p, a, k);
      }
      assert Reached(net, p, a, a) <==> net.relays(p, a) && !net.stopped(p, a);
      LaterAttempts(net, p, a);
    }
  }

  lemma LaterAttempts(net: Net, p: Packet, a: nat)
    ensures forall k: nat :: a < k ==> (Reached(net, p, a, k) <==> Reached(net, p, a + 1, k) && !net.stopped(p, a))
  {
  }

  /** How many calls: up to and including the first attempt that succeeds, or up to the check that finds the
      context cancelled, or six. */
  lemma {:induction false} AttemptsCounted(net: Net, p: Packet, a: nat, k: nat)
    requires a <= k <= 6 && forall j: nat :: a <= j < k ==> !net.stopped(p, j) && !net.relays(p, j)
    ensures k < 6 && !net.stopped(p, k) && net.relays(p, k) ==> Attempts(net, p, a) == Tries(true, k + 1 - a)
    ensures k == 6 || net.stopped(p, k) ==> Attempts(net, p, a) == Tries(false, k - a)
    decreases k - a
  {
    if a < k {
      AttemptsCounted(net, p, a + 1, k);
    }
  }

  // ---------- what becomes of a packet ----------

  /** One of six attempts succeeds before the context is found cancelled. */
  ghost predicate Relayed(net: Net, p: Packet) {
    exists k: nat :: k <= 5 && Reached(net, p, 0, k)
  }

  /** An expired packet is timed out at once. Another is acknowledged when it is relayed; when it is not, it is
      kept as it was, with one retry more, or given up after five. */
  lemma FateMeaning(net: Net, ctx: Ctx, p: Packet)
    ensures var f := FateOf(net, ctx, p);
            && (f.Expired? <==> HasTimedOut(ctx, p))
            && (f.Delivered? <==> !HasTimedOut(ctx, p) && Relayed(net, p))
            && (f.GivenUp? <==> !HasTimedOut(ctx, p) && !Relayed(net, p) && p.retryCount >= 5)
            && (f.Kept? <==> !HasTimedOut(ctx, p) && !Relayed(net, p) && p.retryCount < 5)
            && (f.Kept? ==> f.packet == p.(retryCount := p.retryCount + 1))
  {
    AttemptsMeaning(net, p, 0);
    hide HasTimedOut, Reached;
  }

  /** In a pass that gets to its end the logs say exactly what became of each packet. */
  lemma {:induction false} LogsAreExact(net: Net, ctx: Ctx, ps: seq<Packet>, s: uint64)
    requires PassOver(net, ctx, ps).finished
    ensures s in PassOver(net, ctx, ps).acks <==>
              exists p :: p in ps && p.sequence == s && !HasTimedOut(ctx, p) && Relayed(net, p)
    ensures s in PassOver(net, ctx, ps).timeouts <==>
              exists p :: p in ps && p.sequence == s && (HasTimedOut(ctx, p) || (!Relayed(net, p) && p.retryCount >= 5))
    decreases |ps|
  {
    hide FateOf, HasTimedOut, Relayed;
    if ps != [] {
      LogsAreExact(net, ctx, ps[1..], s);
      FateMeaning(net, ctx, ps[0]);
      var one, rest := Single(net, ctx, ps[0]), PassOver(net, ctx, ps[1..]);
      assert s in PassOver(net, ctx, ps).acks <==> s in one.acks || s in rest.acks;
      assert s in PassOver(net, ctx, ps).timeouts <==> s in one.timeouts || s in rest.timeouts;
      assert forall p :: p in ps <==> p == ps[0] || p in ps[1..];
    }
  }

  // ---------- channels are independent ----------

  datatype Slot = Slot(pending: Option<seq<Packet>>, acks: Option<seq<uint64>>, timeouts: Option<seq<uint64>>)

  function Find<K, V>(m: map<K, V>, k: K): Option<V> {
    if k in m then Some(m[k]) else None
  }

  function SlotOf(st: State, ch: Channel): Slot {
    Slot(Find(st.pending, ch), Find(st.acks, ch), Find(st.timeouts, ch))
  }

  lemma SlotsDecide(s: State, t: State)
    requires forall ch :: SlotOf(s, ch) == SlotOf(t, ch)
    ensures s == t
  {
    forall ch
      ensures ch in s.pending <==> ch in t.pending
      ensures ch in s.acks <==> ch in t.acks
      ensures ch in s.timeouts <==> ch in t.timeouts
      ensures ch in s.pending ==> s.pending[ch] == t.pending[ch]
      ensures ch in s.acks ==> s.acks[ch] == t.acks[ch]
      ensures ch in s.timeouts ==> s.timeouts[ch] == t.timeouts[ch]
    {
      assert SlotOf(s, ch) == SlotOf(t, ch);
    }
    assert s.pending == t.pending;
    assert s.acks == t.acks;
    assert s.timeouts == t.timeouts;
  }

  lemma PassIsLocal(s: State, t: State, ch: Channel, c: Channel, ctx: Ctx, net: Net)
    requires SlotOf(s, ch) == SlotOf(t, ch)
    ensures SlotOf(PassChannel(s, ch, ctx, net), ch) == SlotOf(PassChannel(t, ch, ctx, net), ch)
    ensures c != ch ==> SlotOf(PassChannel(s, ch, ctx, net), c) == SlotOf(s, c)
  {
    assert Queue(s, ch) == Queue(t, ch);
    assert LogOf(s.acks, ch) == LogOf(t.acks, ch) && LogOf(s.timeouts, ch) == LogOf(t.timeouts, ch);
  }

  /** After the channels of `order`, each is as if it alone had been processed. */
  lemma {:induction false} EachAlone(st: State, order: seq<Channel>, ctx: Ctx, net: Net, ch: Channel)
    requires forall i, j :: 0 <= i < j < |order| ==> order[i] != order[j]
    ensures SlotOf(PassInOrder(st, order, ctx, net), ch)
         == SlotOf(if ch in order then PassChannel(st, ch, ctx, net) else st, ch)
    decreases |order|
  {
    hide SlotOf, PassChannel;
    if order != [] {
      var init, c := order[..|order| - 1], order[|order| - 1];
      assert order == init + [c];
      assert c !in init;
      EachAlone(st, init, ctx, net, ch);
      PassIsLocal(PassInOrder(st, init, ctx, net), st, c, ch, ctx, net) by {
        EachAlone(st, init, ctx, net, c);
      }
    }
  }

  /** Given the same relay outcomes, the channels may be processed in any order. */
  lemma ChannelsIndependent(st: State, a: seq<Channel>, b: seq<Channel>, ctx: Ctx, net: Net)
    requires EachOnce(a, st.pending.Keys) && EachOnce(b, st.pending.Keys)
    ensures PassInOrder(st, a, ctx, net) == PassInOrder(st, b, ctx, net)
  {
    forall ch
      ensures SlotOf(PassInOrder(st, a, ctx, net), ch) == SlotOf(PassInOrder(st, b, ctx, net), ch)
    {
      EachAlone(st, a, ctx, net, ch);
      EachAlone(st, b, ctx, net, ch);
    }
    SlotsDecide(PassInOrder(st, a, ctx, net), PassInOrder(st, b, ctx, net));
  }

  // ---------- runs ----------

  datatype Event = Arrive(ctx: Ctx, packet: Packet) | Process(ctx: Ctx, net: Net, order: seq<Channel>)

  ghost predicate Possible(st: State, e: Event) {
    e.Process? ==> EachOnce(e.order, st.pending.Keys)
  }

  function After(st: State, e: Event): State {
    match e
    case Arrive(ctx, p) => if Answer(st, ctx, p) == Accepted then Enqueued(st, ctx, p) else st
    case Process(ctx, net, order) => PassInOrder(st, order, ctx, net)
  }

  function AfterAll(st: State, events: seq<Event>): State {
    if events == [] then st else After(AfterAll(st, events[..|events| - 1]), events[|events| - 1])
  }

  ghost predicate PossibleRun(st: State, events: seq<Event>) {
    forall i :: 0 <= i < |events| ==> Possible(AfterAll(st, events[..i]), events[i])
  }

  /** The sequence numbers accepted for a channel. */
  function AcceptedAt(st: State, e: Event, ch: Channel): multiset<uint64> {
    if e.Arrive? && ChannelOf(e.packet) == ch && Answer(st, e.ctx, e.packet) == Accepted
    then multiset{e.packet.sequence} else multiset{}
  }

  function AcceptedIn(st: State, events: seq<Event>, ch: Channel): multiset<uint64> {
    if events == [] then multiset{}
    else
      var init := events[..|events| - 1];
      AcceptedIn(st, init, ch) + AcceptedAt(AfterAll(st, init), events[|events| - 1], ch)
  }

  /** Everything the handler holds for a channel: pending, acknowledged and timed out. */
  function Holdings(st: State, ch: Channel): multiset<uint64> {
    multiset(Seqs(Queue(st, ch))) + multiset(LogOf(st.acks, ch)) + multiset(LogOf(st.timeouts, ch))
  }

  // ---------- conservation, and where it fails ----------

  predicate Finishes(st: State, e: Event, ch: Channel) {
    e.Process? ==> PassOver(e.net, e.ctx, Queue(st, ch)).finished
  }

  /** A pass gets to the end of its queue exactly when the context is not found cancelled before any packet
      of it. What the checks between attempts find does not count. */
  lemma {:induction false} FinishedMeaning(net: Net, ctx: Ctx, ps: seq<Packet>)
    ensures PassOver(net, ctx, ps).finished <==> forall p :: p in ps ==> !net.halted(p)
    decreases |ps|
  {
    hide Single;
    if ps != [] {
      assert ps == [ps[0]] + ps[1..];
      FinishedMeaning(net, ctx, ps[1..]);
    }
  }

  /** Packet n of the queue is dealt with before the context is found cancelled. */
  ghost predicate DealtWith(net: Net, ps: seq<Packet>, n: nat) {
    n < |ps| && forall i :: 0 <= i <= n ==> !net.halted(ps[i])
  }

  /** A pass logs nothing exactly when every packet it deals with stays in the queue for another try. */
  lemma {:induction false} NothingLogged(net: Net, ctx: Ctx, ps: seq<Packet>)
    ensures var r := PassOver(net, ctx, ps);
            r.acks == [] && r.timeouts == [] <==>
              forall n: nat :: DealtWith(net, ps, n) ==> FateOf(net, ctx, ps[n]).Kept?
    decreases |ps|
  {
    hide FateOf;
    if ps != [] && !net.halted(ps[0]) {
      NothingLogged(net, ctx, ps[1..]);
      DealtWithLater(net, ps);
      assert DealtWith(net, ps, 0);
      assert forall n: nat :: DealtWith(net, ps[1..], n) ==> DealtWith(net, ps, n + 1) && ps[n + 1] == ps[1..][n];
      assert forall n: nat :: DealtWith(net, ps, n) && n > 0 ==>
               DealtWith(net, ps[1..], n - 1) && ps[n] == ps[1..][n - 1];
    }
  }

  lemma DealtWithLater(net: Net, ps: seq<Packet>)
    requires ps != [] && !net.halted(ps[0])
    ensures forall n: nat :: DealtWith(net, ps[1..], n) <==> DealtWith(net, ps, n + 1)
  {
    forall n: nat
      ensures DealtWith(net, ps[1..], n) <==> DealtWith(net, ps, n + 1)
    {
      if DealtWith(net, ps[1..], n) {
        assert forall i :: 0 < i <= n + 1 ==> ps[i] == ps[1..][i - 1];
      }
      if DealtWith(net, ps, n + 1) {
        assert forall i :: 0 <= i <= n ==> ps[1..][i] == ps[i + 1];
      }
    }
  }

  /** What a pass logs while the packets stay in the queue: the logs of one that does not get to its end. */
  function Surplus(r: Pass): multiset<uint64> {
    if r.finished then multiset{} else multiset(r.acks) + multiset(r.timeouts)
  }

  lemma ChannelPassHoldings(st: State, ch: Channel, ctx: Ctx, net: Net)
    ensures Holdings(PassChannel(st, ch, ctx, net), ch) == Holdings(st, ch) + Surplus(PassOver(net, ctx, Queue(st, ch)))
  {
    hide PassOver, Seqs, Append, LogOf;
    var st', r, q := PassChannel(st, ch, ctx, net), PassOver(net, ctx, Queue(st, ch)), Queue(st, ch);
    var b, c := multiset(LogOf(st.acks, ch)), multiset(LogOf(st.timeouts, ch));
    var x, y := multiset(r.acks), multiset(r.timeouts);
    assert multiset(LogOf(st'.acks, ch)) == b + x by { AppendedLog(st.acks, ch, r.acks); }
    assert multiset(LogOf(st'.timeouts, ch)) == c + y by { AppendedLog(st.timeouts, ch, r.timeouts); }
    if r.finished {
      assert Queue(st', ch) == r.kept;
      assert multiset(Seqs(r.kept)) + x + y == multiset(Seqs(q)) by { PassConserves(net, ctx, q); }
      Shuffle(multiset(Seqs(q)), multiset(Seqs(r.kept)), b, c, x, y);
    } else {
      assert Queue(st', ch) == q;
      Gathered(multiset(Seqs(q)), b, c, x, y);
    }
  }

  lemma Gathered(q: multiset<uint64>, b: multiset<uint64>, c: multiset<uint64>,
                 x: multiset<uint64>, y: multiset<uint64>)
    ensures q + (b + x) + (c + y) == q + b + c + (x + y)
  {
  }

  /** A pass over a channel conserves what the handler holds exactly when it gets to its end or has logged
      nothing before it is cancelled. */
  lemma PassConservesIff(st: State, ch: Channel, ctx: Ctx, net: Net)
    ensures Holdings(PassChannel(st, ch, ctx, net), ch) == Holdings(st, ch)
       <==> var r := PassOver(net, ctx, Queue(st, ch)); r.finished || (r.acks == [] && r.timeouts == [])
  {
    var r := PassOver(net, ctx, Queue(st, ch));
    ChannelPassHoldings(st, ch, ctx, net);
    hide PassOver, PassChannel, Holdings;
    var h, h' := Holdings(st, ch), Holdings(PassChannel(st, ch, ctx, net), ch);
    assert |h'| == |h| + |Surplus(r)|;
    assert |multiset(r.acks) + multiset(r.timeouts)| == |r.acks| + |r.timeouts|;
  }

  lemma AppendedLog(log: Logs, ch: Channel, more: seq<uint64>)
    ensures multiset(LogOf(Append(log, ch, more), ch)) == multiset(LogOf(log, ch)) + multiset(more)
  {
    assert LogOf(Append(log, ch, more), ch) == LogOf(log, ch) + more;
  }

  lemma Shuffle(q: multiset<uint64>, k: multiset<uint64>, b: multiset<uint64>, c: multiset<uint64>,
                x: multiset<uint64>, y: multiset<uint64>)
    requires k + x + y == q
    ensures k + (b + x) + (c + y) == q + b + c
  {
  }

  lemma SlotHoldings(s: State, t: State, ch: Channel)
    requires SlotOf(s, ch) == SlotOf(t, ch)
    ensures Holdings(s, ch) == Holdings(t, ch)
  {
    assert Queue(s, ch) == Queue(t, ch);
    assert LogOf(s.acks, ch) == LogOf(t.acks, ch) && LogOf(s.timeouts, ch) == LogOf(t.timeouts, ch);
  }

  lemma ArrivalHoldings(st: State, ctx: Ctx, p: Packet, ch: Channel)
    ensures Holdings(Enqueued(st, ctx, p), ch)
         == Holdings(st, ch) + if ch == ChannelOf(p) then multiset{p.sequence} else multiset{}
  {
    var st' := Enqueued(st, ctx, p);
    if ch == ChannelOf(p) {
      var queue := Queue(st, ch);
      SeqsConcat(queue, [Stamped(ctx, p)]);
      assert Seqs([Stamped(ctx, p)]) == [p.sequence];
      hide Seqs;
      assert Queue(st', ch) == queue + [Stamped(ctx, p)];
      assert multiset(Seqs(Queue(st', ch))) == multiset(Seqs(queue)) + multiset{p.sequence};
    } else {
      assert Queue(st', ch) == Queue(st, ch);
    }
  }

  /** The surplus an event leaves for a channel, and a run. */
  function SurplusAt(st: State, e: Event, ch: Channel): multiset<uint64> {
    if e.Process? then Surplus(PassOver(e.net, e.ctx, Queue(st, ch))) else multiset{}
  }

  function SurplusIn(st: State, events: seq<Event>, ch: Channel): multiset<uint64> {
    if events == [] then multiset{}
    else
      var init := events[..|events| - 1];
      SurplusIn(st, init, ch) + SurplusAt(AfterAll(st, init), events[|events| - 1], ch)
  }

  lemma EventHoldings(st: State, e: Event, ch: Channel)
    requires Possible(st, e)
    ensures Holdings(After(st, e), ch) == Holdings(st, ch) + AcceptedAt(st, e, ch) + SurplusAt(st, e, ch)
  {
    hide Holdings, PassChannel, Enqueued, Answer, Surplus;
    match e
    case Arrive(ctx, p) =>
      ArrivalHoldings(st, ctx, p, ch);
    case Process(ctx, net, order) =>
      EachAlone(st, order, ctx, net, ch);
      SlotHoldings(After(st, e), if ch in order then PassChannel(st, ch, ctx, net) else st, ch);
      if ch in order {
        ChannelPassHoldings(st, ch, ctx, net);
      } else {
        NoSurplus(ctx, net);
      }
  }

  lemma NoSurplus(ctx: Ctx, net: Net)
    ensures Surplus(PassOver(net, ctx, [])) == multiset{}
  {
  }

  /** Over any run, cancelled passes included, what is held for a channel is what was held at the start,
      what was accepted since, and what cancelled passes have logged of packets they left in the queue. */
  lemma {:induction false} HoldingsOverRun(st: State, events: seq<Event>, ch: Channel)
    requires PossibleRun(st, events)
    ensures Holdings(AfterAll(st, events), ch)
         == Holdings(st, ch) + AcceptedIn(st, events, ch) + SurplusIn(st, events, ch)
    decreases |events|
  {
    hide Holdings, AcceptedAt, SurplusAt, After;
    if events != [] {
      var n := |events| - 1;
      PrefixPossible(st, events);
      HoldingsOverRun(st, events[..n], ch);
      EventHoldings(AfterAll(st, events[..n]), events[n], ch);
    }
  }

  /** Nothing accepted is ever lost, cancelled passes included. */
  lemma NothingLost(st: State, events: seq<Event>, ch: Channel)
    requires PossibleRun(st, events)
    ensures Holdings(st, ch) + AcceptedIn(st, events, ch) <= Holdings(AfterAll(st, events), ch)
  {
    HoldingsOverRun(st, events, ch);
  }

  /** Accepted is exactly pending plus acked plus timed out, beyond what there was at the start, if and only
      if every pass over the channel gets to its end or logs nothing. */
  lemma Conservation(st: State, events: seq<Event>, ch: Channel)
    requires PossibleRun(st, events)
    ensures Holdings(AfterAll(st, events), ch) == Holdings(st, ch) + AcceptedIn(st, events, ch)
       <==> forall i :: 0 <= i < |events| ==> LeavesNoSurplus(AfterAll(st, events[..i]), events[i], ch)
  {
    HoldingsOverRun(st, events, ch);
    SurplusVanishes(st, events, ch);
    hide Holdings, AcceptedIn, LeavesNoSurplus;
    var h, more, extra := Holdings(st, ch), AcceptedIn(st, events, ch), SurplusIn(st, events, ch);
    assert |h + more + extra| == |h + more| + |extra|;
  }

  predicate LeavesNoSurplus(st: State, e: Event, ch: Channel) {
    e.Process? ==>
      var r := PassOver(e.net, e.ctx, Queue(st, ch));
      r.finished || (r.acks == [] && r.timeouts == [])
  }

  lemma NoSurplusMeaning(st: State, e: Event, ch: Channel)
    ensures SurplusAt(st, e, ch) == multiset{} <==> LeavesNoSurplus(st, e, ch)
  {
    if e.Process? {
      var r := PassOver(e.net, e.ctx, Queue(st, ch));
      hide PassOver;
      assert |multiset(r.acks) + multiset(r.timeouts)| == |r.acks| + |r.timeouts|;
    }
  }

  lemma {:induction false} SurplusVanishes(st: State, events: seq<Event>, ch: Channel)
    ensures SurplusIn(st, events, ch) == multiset{}
       <==> forall i :: 0 <= i < |events| ==> LeavesNoSurplus(AfterAll(st, events[..i]), events[i], ch)
    decreases |events|
  {
    hide LeavesNoSurplus, SurplusAt, AfterAll;
    if events != [] {
      var n := |events| - 1;
      var init := events[..n];
      SurplusVanishes(st, init, ch);
      NoSurplusMeaning(AfterAll(st, init), events[n], ch);
      assert forall i :: 0 <= i < n ==> init[..i] == events[..i] && init[i] == events[i];
      var a, b := SurplusIn(st, init, ch), SurplusAt(AfterAll(st, init), events[n], ch);
      assert SurplusIn(st, events, ch) == a + b;
      assert |a + b| == |a| + |b|;
    }
  }

  /** It does fail: p is relayed, the context is cancelled before q, and the next pass relays both, so that p
      stands in the acks twice. */
  lemma AckedTwice(p: Packet, q: Packet, ctx: Ctx, ch: Channel)
    requires p != q && !HasTimedOut(ctx, p) && !HasTimedOut(ctx, q)
    ensures var st := State(map[ch := [p, q]], map[], map[]);
            var cancelled := Net((_, _) => true, x => x == q, (_, _) => false);
            var run := [Process(ctx, cancelled, [ch]), Process(ctx, Works(), [ch])];
            && PossibleRun(st, run)
            && AfterAll(st, run) == State(map[], map[ch := [p.sequence, p.sequence, q.sequence]], map[])
  {
    var st := State(map[ch := [p, q]], map[], map[]);
    var cancelled := Net((_, _) => true, x => x == q, (_, _) => false);
    var run := [Process(ctx, cancelled, [ch]), Process(ctx, Works(), [ch])];
    var mid := State(map[ch := [p, q]], map[ch := [p.sequence]], map[]);
    assert [p, q][1..] == [q] && [q][1..] == [];
    OneRelayed(cancelled, ctx, p);
    OneRelayed(Works(), ctx, p);
    OneRelayed(Works(), ctx, q);
    assert PassOver(cancelled, ctx, [p, q]) == Pass(false, [], [p.sequence], [], 1);
    assert PassOver(Works(), ctx, [p, q]) == Pass(true, [], [p.sequence, q.sequence], [], 2) by {
      assert PassOver(Works(), ctx, [q]) == Pass(true, [], [q.sequence], [], 1);
    }
    hide PassOver;
    assert Queue(st, ch) == [p, q] && Queue(mid, ch) == [p, q];
    AppendToLog(map[], ch, [p.sequence]);
    AppendToLog(mid.acks, ch, [p.sequence, q.sequence]);
    assert [] + [p.sequence] == [p.sequence];
    assert [p.sequence] + [p.sequence, q.sequence] == [p.sequence, p.sequence, q.sequence];
    assert PassChannel(st, ch, ctx, cancelled) == mid;
    assert mid.pending - {ch} == map[];
    assert PassChannel(mid, ch, ctx, Works()) == State(map[], map[ch := [p.sequence, p.sequence, q.sequence]], map[]);
    OneChannel(st, ch, ctx, cancelled);
    OneChannel(mid, ch, ctx, Works());
    TwoEvents(st, run[0], run[1]);
  }

  lemma AppendToLog(log: Logs, ch: Channel, more: seq<uint64>)
    requires log.Keys <= {ch} && more != []
    ensures Append(log, ch, more) == map[ch := LogOf(log, ch) + more]
    ensures Append(log, ch, []) == log
  {
  }

  lemma OneChannel(st: State, ch: Channel, ctx: Ctx, net: Net)
    ensures PassInOrder(st, [ch], ctx, net) == PassChannel(st, ch, ctx, net)
  {
    PassNext(st, [], ch, ctx, net);
    assert [] + [ch] == [ch];
  }

  lemma TwoEvents(st: State, a: Event, b: Event)
    ensures AfterAll(st, [a, b]) == After(After(st, a), b)
    ensures Possible(st, a) && Possible(After(st, a), b) ==> PossibleRun(st, [a, b])
  {
    var run := [a, b];
    assert run[..0] == [] && run[..1] == [a] && [a][..0] == [];
    assert AfterAll(st, [a]) == After(st, a);
    assert run[..|run| - 1] == [a];
  }

  /** A network on which every attempt succeeds, in a context that is never cancelled. */
  function Works(): Net {
    Net((_, _) => true, _ => false, (_, _) => false)
  }

  lemma OneRelayed(net: Net, ctx: Ctx, p: Packet)
    requires net.relays(p, 0) && !net.stopped(p, 0) && !HasTimedOut(ctx, p)
    ensures Single(net, ctx, p) == Pass(true, [], [p.sequence], [], 1)
  {
  }

  lemma PrefixPossible(st: State, events: seq<Event>)
    requires PossibleRun(st, events) && events != []
    ensures PossibleRun(st, events[..|events| - 1])
  {
    var n := |events| - 1;
    forall i | 0 <= i < n
      ensures Possible(AfterAll(st, events[..n][..i]), events[..n][i])
    {
      assert events[..n][..i] == events[..i];
    }
  }

  lemma EventKeepsOrder(st: State, e: Event)
    requires Ordered(st) && Possible(st, e)
    ensures Ordered(After(st, e))
  {
    hide PassInOrder, Increasing, Enqueued, Answer;
    forall ch | ch in After(st, e).pending
      ensures After(st, e).pending[ch] != [] && Increasing(Seqs(After(st, e).pending[ch]))
    {
      match e
      case Arrive(ctx, p) =>
        if Answer(st, ctx, p) == Accepted { ArrivalKeepsOrder(st, ctx, p, ch); }
      case Process(ctx, net, order) =>
        PassesKeepOrder(st, order, ctx, net, ch);
    }
  }

  lemma ArrivalKeepsOrder(st: State, ctx: Ctx, p: Packet, ch: Channel)
    requires Ordered(st) && Answer(st, ctx, p) == Accepted && ch in Enqueued(st, ctx, p).pending
    ensures var queue := Enqueued(st, ctx, p).pending[ch]; queue != [] && Increasing(Seqs(queue))
  {
    if ch == ChannelOf(p) {
      var queue := Queue(st, ch);
      assert queue != [] ==> Increasing(Seqs(queue)) && Seqs(queue)[|queue| - 1] < p.sequence;
      assert Seqs(queue + [Stamped(ctx, p)]) == Seqs(queue) + [p.sequence];
    }
  }

  lemma PassesKeepOrder(st: State, order: seq<Channel>, ctx: Ctx, net: Net, ch: Channel)
    requires Ordered(st) && EachOnce(order, st.pending.Keys) && ch in PassInOrder(st, order, ctx, net).pending
    ensures var queue := PassInOrder(st, order, ctx, net).pending[ch]; queue != [] && Increasing(Seqs(queue))
  {
    hide PassInOrder, PassOver, Seqs, Append;
    EachAlone(st, order, ctx, net, ch);
    if ch in order {
      assert Increasing(Seqs(st.pending[ch]));
      PassKeepsOrder(net, ctx, st.pending[ch], -1);
    }
  }

  /** In every reachable state each queue is non-empty and strictly increasing, so sorting it is a no-op
      and no sequence number is pending twice. */
  lemma {:induction false} RunKeepsOrder(st: State, events: seq<Event>)
    requires Ordered(st) && PossibleRun(st, events)
    ensures Ordered(AfterAll(st, events))
    decreases |events|
  {
    if events != [] {
      PrefixPossible(st, events);
      RunKeepsOrder(st, events[..|events| - 1]);
      EventKeepsOrder(AfterAll(st, events[..|events| - 1]), events[|events| - 1]);
    }
  }
}
