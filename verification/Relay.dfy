/** The relay queue: accepting packets, and one processing pass over the channels. */
module Relay {
  import opened Bytes
  import opened Options

  const MAX_RETRIES := 5

  datatype Height = Height(revisionNumber: uint64, revisionHeight: uint64)

  datatype Status = Pending | Sent | Acked | TimedOut

  /** Times are nanoseconds; data is None for a nil slice. */
  datatype Packet = Packet(
    sequence: uint64,
    sourcePort: string, sourceChan: string, sourceChainID: string,
    destPort: string, destChan: string, destChainID: string,
    data: Option<Bytes>,
    timeoutHeight: Height, timeoutTimestamp: uint64,
    retryCount: int, firstAttempt: int, status: Status, lastRetry: int)

  /** Block height and block time of the context a call runs in. */
  datatype Ctx = Ctx(height: int64, nanos: int64)

  /** The world during one pass. relays(p, a): attempt a for packet p succeeds. halted(p): the context is
      found cancelled before packet p is looked at. stopped(p, a): it is found so before attempt a. */
  datatype Net = Net(relays: (Packet, nat) -> bool, halted: Packet -> bool, stopped: (Packet, nat) -> bool)

  type Channel = string
  type Queues = map<Channel, seq<Packet>>
  type Logs = map<Channel, seq<uint64>>

  datatype State = State(pending: Queues, acks: Logs, timeouts: Logs)

  // ---------- accepting packets ----------

  datatype QueueResult = Accepted | InvalidSequence | MissingField | AlreadyTimedOut | Duplicate | OutOfOrder

  function ChannelOf(p: Packet): Channel {
    p.sourcePort + "/" + p.sourceChan
  }

  function Validate(p: Packet): QueueResult {
    if p.sequence == 0 then InvalidSequence
    else if p.sourcePort == "" || p.sourceChan == "" || p.sourceChainID == "" || p.destPort == ""
         || p.destChan == "" || p.destChainID == "" || p.data.None? then MissingField
    else Accepted
  }

  /** isPacketTimedOut: unsigned limits are compared as signed numbers. */
  predicate HasTimedOut(ctx: Ctx, p: Packet) {
    || (p.timeoutHeight != Height(0, 0) && ctx.height >= ToInt64(p.timeoutHeight.revisionHeight))
    || (p.timeoutTimestamp != 0 && ctx.nanos >= ToInt64(p.timeoutTimestamp))
  }

  function Queue(st: State, ch: Channel): seq<Packet> {
    if ch in st.pending then st.pending[ch] else []
  }

  function LogOf(log: Logs, ch: Channel): seq<uint64> {
    if ch in log then log[ch] else []
  }

  function Append(log: Logs, ch: Channel, more: seq<uint64>): Logs {
    if more == [] then log else log[ch := LogOf(log, ch) + more]
  }

  function Seqs(ps: seq<Packet>): (r: seq<uint64>)
    ensures |r| == |ps| && forall i :: 0 <= i < |ps| ==> r[i] == ps[i].sequence
  {
    seq(|ps|, i requires 0 <= i < |ps| => ps[i].sequence)
  }

  ghost predicate Increasing(s: seq<uint64>) {
    forall i, j :: 0 <= i < j < |s| ==> s[i] < s[j]
  }

  /** What QueuePacket answers. */
  function Answer(st: State, ctx: Ctx, p: Packet): QueueResult {
    var queue := Queue(st, ChannelOf(p));
    if Validate(p) != Accepted then Validate(p)
    else if HasTimedOut(ctx, p) then AlreadyTimedOut
    else if p.sequence in Seqs(queue) then Duplicate
    else if queue != [] && p.sequence <= queue[|queue| - 1].sequence then OutOfOrder
    else Accepted
  }

  function Stamped(ctx: Ctx, p: Packet): Packet {
    p.(status := Pending, firstAttempt := ctx.nanos)
  }

  function Enqueued(st: State, ctx: Ctx, p: Packet): State {
    var ch := ChannelOf(p);
    st.(pending := st.pending[ch := Queue(st, ch) + [Stamped(ctx, p)]])
  }

  // ---------- one pass ----------

  datatype Tries = Tries(ok: bool, calls: nat)

  /** relayWithRetry from attempt a on: whether it succeeds, and how often it calls the relay function. */
  function Attempts(net: Net, p: Packet, a: nat): Tries
    decreases MAX_RETRIES + 1 - a
  {
    if a > MAX_RETRIES || net.stopped(p, a) then Tries(false, 0)
    else if net.relays(p, a) then Tries(true, 1)
    else var t := Attempts(net, p, a + 1); Tries(t.ok, t.calls + 1)
  }

  datatype Fate = Expired | Delivered | GivenUp | Kept(packet: Packet)

  function FateOf(net: Net, ctx: Ctx, p: Packet): Fate {
    if HasTimedOut(ctx, p) then Expired
    else if Attempts(net, p, 0).ok then Delivered
    else if p.retryCount >= MAX_RETRIES then GivenUp
    else Kept(p.(retryCount := p.retryCount + 1))
  }

  function CallsFor(net: Net, ctx: Ctx, p: Packet): nat {
    if HasTimedOut(ctx, p) then 0 else Attempts(net, p, 0).calls
  }

  datatype Pass = Pass(finished: bool, kept: seq<Packet>, acks: seq<uint64>, timeouts: seq<uint64>, calls: nat)

  /** What dealing with one packet contributes. */
  function Single(net: Net, ctx: Ctx, p: Packet): Pass {
    var fate := FateOf(net, ctx, p);
    Pass(true, KeptIn(fate), AckedIn(fate, p), LateIn(fate, p), CallsFor(net, ctx, p))
  }

  function KeptIn(fate: Fate): seq<Packet> {
    if fate.Kept? then [fate.packet] else []
  }

  function AckedIn(fate: Fate, p: Packet): seq<uint64> {
    if fate.Delivered? then [p.sequence] else []
  }

  function LateIn(fate: Fate, p: Packet): seq<uint64> {
    if fate.Expired? || fate.GivenUp? then [p.sequence] else []
  }

  function Joined(a: Pass, b: Pass): Pass {
    Pass(b.finished, a.kept + b.kept, a.acks + b.acks, a.timeouts + b.timeouts, a.calls + b.calls)
  }

  /** processChannelPackets over a queue in order: what stays, what is logged, whether it got to the end. */
  function PassOver(net: Net, ctx: Ctx, ps: seq<Packet>): Pass {
    if ps == [] then Pass(true, [], [], [], 0)
    else if net.halted(ps[0]) then Pass(false, [], [], [], 0)
    else Joined(Single(net, ctx, ps[0]), PassOver(net, ctx, ps[1..]))
  }

  /** A pass over one channel: an unfinished one logs what it did and leaves the queue alone. */
  function PassChannel(st: State, ch: Channel, ctx: Ctx, net: Net): State {
    var r := PassOver(net, ctx, Queue(st, ch));
    State(if !r.finished then st.pending
          else if r.kept != [] then st.pending[ch := r.kept]
          else st.pending - {ch},
          Append(st.acks, ch, r.acks), Append(st.timeouts, ch, r.timeouts))
  }

  /** The channels one after another. */
  function PassInOrder(st: State, order: seq<Channel>, ctx: Ctx, net: Net): State {
    if order == [] then st
    else PassChannel(PassInOrder(st, order[..|order| - 1], ctx, net), order[|order| - 1], ctx, net)
  }

  ghost predicate EachOnce(order: seq<Channel>, channels: set<Channel>) {
    && (forall i, j :: 0 <= i < j < |order| ==> order[i] != order[j])
    && (forall ch :: ch in order <==> ch in channels)
  }

  /** Every queue is non-empty and strictly increasing in sequence number. */
  ghost predicate Ordered(st: State) {
    forall ch :: ch in st.pending ==> st.pending[ch] != [] && Increasing(Seqs(st.pending[ch]))
  }

  // ---------- sums over channels ----------

  ghost function Sum(chs: set<Channel>, f: Channel -> nat): nat {
    if chs == {} then 0
    else
      var ch :| ch in chs;
      f(ch) + Sum(chs - {ch}, f)
  }

  lemma {:induction false} SumWithout(chs: set<Channel>, f: Channel -> nat, ch: Channel)
    requires ch in chs
    ensures Sum(chs, f) == f(ch) + Sum(chs - {ch}, f)
    decreases |chs|
  {
    var c :| c in chs && Sum(chs, f) == f(c) + Sum(chs - {c}, f);
    if c != ch {
      SumWithout(chs - {c}, f, ch);
      SumWithout(chs - {ch}, f, c);
      assert chs - {c} - {ch} == chs - {ch} - {c};
    }
  }

  lemma {:induction false} SumEqual(chs: set<Channel>, f: Channel -> nat, g: Channel -> nat)
    requires forall ch :: ch in chs ==> f(ch) == g(ch)
    ensures Sum(chs, f) == Sum(chs, g)
    decreases |chs|
  {
    if chs != {} {
      var ch :| ch in chs;
      SumWithout(chs, f, ch);
      SumWithout(chs, g, ch);
      SumEqual(chs - {ch}, f, g);
    }
  }

  /** The relay calls that a pass over all channels makes. */
  ghost function PassCalls(st: State, ctx: Ctx, net: Net): nat {
    Sum(st.pending.Keys, CallsAt(st, ctx, net))
  }

  function CallsAt(st: State, ctx: Ctx, net: Net): Channel -> nat {
    (ch: Channel) => PassOver(net, ctx, Queue(st, ch)).calls
  }

  // ---------- the handler ----------

  ghost predicate SortedBySequence(ps: seq<Packet>) {
    forall i, j :: 0 <= i < j < |ps| ==> ps[i].sequence <= ps[j].sequence
  }

  /** sort.Slice: some sorted arrangement of the same packets. */
  method SortPackets(ps: seq<Packet>) returns (r: seq<Packet>)
    ensures SortedBySequence(r) && multiset(r) == multiset(ps)
  {
    r := [];
    for n := 0 to |ps|
      invariant SortedBySequence(r) && multiset(r) == multiset(ps[..n])
    {
      assert ps[..n + 1] == ps[..n] + [ps[n]];
      r := InsertPacket(r, ps[n]);
    }
    assert ps[..|ps|] == ps;
  }

  method InsertPacket(r: seq<Packet>, p: Packet) returns (s: seq<Packet>)
    requires SortedBySequence(r)
    ensures SortedBySequence(s) && multiset(s) == multiset(r) + multiset{p}
  {
    var k := |r|;
    while k > 0 && p.sequence < r[k - 1].sequence
      invariant 0 <= k <= |r|
      invariant k < |r| ==> p.sequence < r[k].sequence
    {
      k := k - 1;
    }
    InsertedSorted(r, k, p);
    s := r[..k] + [p] + r[k..];
    assert r == r[..k] + r[k..];
  }

  lemma InsertedSorted(r: seq<Packet>, k: nat, p: Packet)
    requires SortedBySequence(r) && k <= |r|
    requires k < |r| ==> p.sequence <= r[k].sequence
    requires k > 0 ==> r[k - 1].sequence <= p.sequence
    ensures SortedBySequence(r[..k] + [p] + r[k..])
  {
    var s := r[..k] + [p] + r[k..];
    forall i, j | 0 <= i < j < |s|
      ensures s[i].sequence <= s[j].sequence
    {
      assert i < k ==> s[i] == r[i] && s[i].sequence <= p.sequence;
      assert j > k ==> s[j] == r[j - 1] && p.sequence <= s[j].sequence;
    }
  }

  class RelayHandler {
    var pending: Queues
    var acks: Logs
    var timeouts: Logs

    ghost function Contents(): State
      reads this
    {
      State(pending, acks, timeouts)
    }

    constructor ()
      ensures Contents() == State(map[], map[], map[])
    {
      pending, acks, timeouts := map[], map[], map[];
    }

    method QueuePacket(ctx: Ctx, packet: Packet) returns (r: QueueResult)
      modifies this
      ensures r == Answer(old(Contents()), ctx, packet)
      ensures Contents() == if r == Accepted then Enqueued(old(Contents()), ctx, packet) else old(Contents())
    {
      r := Validate(packet);
      if r != Accepted { return; }
      if HasTimedOut(ctx, packet) { return AlreadyTimedOut; }
      var ch := ChannelOf(packet);
      var packets := if ch in pending then pending[ch] else [];
      for i := 0 to |packets|
        invariant forall j :: 0 <= j < i ==> packets[j].sequence != packet.sequence
      {
        if packets[i].sequence == packet.sequence {
          assert Seqs(packets)[i] == packet.sequence;
          return Duplicate;
        }
      }
      if |packets| > 0 && packet.sequence <= packets[|packets| - 1].sequence { return OutOfOrder; }
      pending := pending[ch := packets + [packet.(status := Pending, firstAttempt := ctx.nanos)]];
    }

    /** relayWithRetry. */
    method RelayWithRetry(net: Net, packet: Packet) returns (ok: bool, ghost calls: nat)
      ensures ok <==> Attempts(net, packet, 0).ok
      ensures calls == Attempts(net, packet, 0).calls
    {
      calls := 0;
      for attempt := 0 to MAX_RETRIES + 1
        invariant Attempts(net, packet, 0)
               == Tries(Attempts(net, packet, attempt).ok, calls + Attempts(net, packet, attempt).calls)
      {
        if net.stopped(packet, attempt) { return false, calls; }
        calls := calls + 1;
        if net.relays(packet, attempt) { return true, calls; }
      }
      return false, calls;
    }

    /** One packet of a pass: its fate, and the log entry for it. */
    method ProcessPacket(ctx: Ctx, ch: Channel, packet: Packet, net: Net) returns (fate: Fate, ghost calls: nat)
      modifies this
      ensures fate == FateOf(net, ctx, packet) && calls == CallsFor(net, ctx, packet)
      ensures pending == old(pending)
      ensures acks == Append(old(acks), ch, AckedIn(fate, packet))
      ensures timeouts == Append(old(timeouts), ch, LateIn(fate, packet))
    {
      calls := 0;
      if HasTimedOut(ctx, packet) {
        timeouts := timeouts[ch := (if ch in timeouts then timeouts[ch] else []) + [packet.sequence]];
        return Expired, 0;
      }
      var ok;
      ok, calls := RelayWithRetry(net, packet);
      if !ok {
        if packet.retryCount >= MAX_RETRIES {
          timeouts := timeouts[ch := (if ch in timeouts then timeouts[ch] else []) + [packet.sequence]];
          return GivenUp, calls;
        }
        return Kept(packet.(retryCount := packet.retryCount + 1)), calls;
      }
      acks := acks[ch := (if ch in acks then acks[ch] else []) + [packet.sequence]];
      fate := Delivered;
    }

    /** processChannelPackets for the queue of a channel, which is sorted in place first. */
    method ProcessChannelPackets(ctx: Ctx, ch: Channel, packets: seq<Packet>, net: Net)
      returns (finished: bool, ghost calls: nat, ghost sorted: seq<Packet>)
      requires ch in pending && pending[ch] == packets
      modifies this
      ensures SortedBySequence(sorted) && multiset(sorted) == multiset(packets)
      ensures Increasing(Seqs(packets)) ==> sorted == packets
      ensures Contents() == PassChannel(Rearranged(old(Contents()), ch, sorted), ch, ctx, net)
      ensures var r := PassOver(net, ctx, sorted); finished == r.finished && calls == r.calls
    {
      hide FateOf, CallsFor, Append, AckedIn, LateIn, Increasing, SortedBySequence;
      var queue := SortPackets(packets);
      pending := pending[ch := queue];
      sorted := queue;
      if Increasing(Seqs(packets)) {
        SortIsIdentity(packets, queue);
      }
      var remaining: seq<Packet> := [];
      calls := 0;
      ghost var done := Pass(true, [], [], [], 0);
      AppendNothing(acks, ch);
      AppendNothing(timeouts, ch);
      JoinNothing(PassOver(net, ctx, queue));
      assert queue[0..] == queue;
      for i := 0 to |queue|
        invariant pending == old(pending)[ch := queue] && done.kept == remaining && done.calls == calls && done.finished
        invariant acks == Append(old(acks), ch, done.acks) && timeouts == Append(old(timeouts), ch, done.timeouts)
        invariant PassOver(net, ctx, queue) == Joined(done, PassOver(net, ctx, queue[i..]))
      {
        var packet := queue[i];
        if net.halted(packet) {
          JoinEnd(done, false);
          return false, calls, sorted;
        }
        assert queue[i..][1..] == queue[i + 1..];
        var fate; ghost var n;
        fate, n := ProcessPacket(ctx, ch, packet, net);
        if fate.Kept? {
          remaining := remaining + [fate.packet];
        }
        calls := calls + n;
        AppendTwice(old(acks), ch, done.acks, AckedIn(fate, packet));
        AppendTwice(old(timeouts), ch, done.timeouts, LateIn(fate, packet));
        JoinThrice(done, Single(net, ctx, packet), PassOver(net, ctx, queue[i + 1..]));
        done := Joined(done, Single(net, ctx, packet));
      }
      JoinEnd(done, true);
      if |remaining| > 0 {
        pending := pending[ch := remaining];
      } else {
        pending := pending - {ch};
      }
      finished := true;
    }

    /** ProcessPackets: a pass over every channel that has a queue. The goroutines are taken one at a
        time, in whatever order. `arranged` are the queues as they are sorted in place; queues that were in
        order, as in every reachable state, stay as they are. */
    method ProcessPackets(ctx: Ctx, net: Net)
      returns (ok: bool, ghost order: seq<Channel>, ghost arranged: Queues, ghost calls: nat)
      modifies this
      ensures EachOnce(order, old(pending).Keys) && IsArrangement(arranged, old(pending))
      ensures Ordered(old(Contents())) ==> arranged == old(pending)
      ensures Contents() == PassInOrder(old(Contents()).(pending := arranged), order, ctx, net)
      ensures ok <==> forall ch :: ch in arranged ==> PassOver(net, ctx, arranged[ch]).finished
      ensures calls == PassCalls(old(Contents()).(pending := arranged), ctx, net)
    {
      hide PassChannel, PassOver, PassInOrder, EachOnce, Increasing, Ordered, IsArrangement, Underway;
      hide CallsAt, SortedBySequence;
      var snapshot, left := pending, pending.Keys;
      ghost var start, done: set<Channel> := Contents(), {};
      Begun(start, ctx, net);
      order, arranged, ok, calls := [], pending, true, 0;
      while left != {}
        invariant left == snapshot.Keys - done && done <= snapshot.Keys
        invariant Underway(start, arranged, order, done, Contents(), ok, calls, ctx, net)
        decreases |left|
      {
        var ch :| ch in left;
        left := left - {ch};
        StillWaiting(start, arranged, order, done, Contents(), ok, calls, ctx, net, ch);
        Advanced(start, arranged, order, done, Contents(), ok, calls, ctx, net, ch);
        var finished;
        ghost var n, sorted;
        finished, n, sorted := ProcessChannelPackets(ctx, ch, snapshot[ch], net);
        arranged := arranged[ch := sorted];
        ok, calls := ok && finished, calls + n;
        order, done := order + [ch], done + {ch};
      }
      assert done == snapshot.Keys;
      Ended(start, arranged, order, Contents(), ok, calls, ctx, net);
    }
  }

  /** How far ProcessPackets has come from `start` when the channels `done` are passed over. */
  ghost predicate Underway(start: State, arranged: Queues, order: seq<Channel>, done: set<Channel>, now: State,
                           ok: bool, calls: nat, ctx: Ctx, net: Net) {
    && EachOnce(order, done) && IsArrangement(arranged, start.pending)
    && (forall ch :: ch in start.pending && ch !in done ==>
                       ch in now.pending && now.pending[ch] == start.pending[ch] == arranged[ch])
    && now == PassInOrder(start.(pending := arranged), order, ctx, net)
    && (ok <==> forall ch :: ch in done && ch in arranged ==> PassOver(net, ctx, arranged[ch]).finished)
    && calls == Sum(done, CallsAt(start.(pending := arranged), ctx, net))
  }

  lemma Begun(start: State, ctx: Ctx, net: Net)
    ensures Underway(start, start.pending, [], {}, start, true, 0, ctx, net)
  {
    AlreadyArranged(start.pending);
    assert start.(pending := start.pending) == start;
  }

  lemma StillWaiting(start: State, arranged: Queues, order: seq<Channel>, done: set<Channel>, now: State,
                     ok: bool, calls: nat, ctx: Ctx, net: Net, ch: Channel)
    requires Underway(start, arranged, order, done, now, ok, calls, ctx, net) && ch in start.pending && ch !in done
    ensures ch in now.pending && now.pending[ch] == start.pending[ch]
  {
  }

  /** One more channel, whatever sorting makes of its queue. */
  lemma Advanced(start: State, arranged: Queues, order: seq<Channel>, done: set<Channel>, now: State,
                 ok: bool, calls: nat, ctx: Ctx, net: Net, ch: Channel)
    requires Underway(start, arranged, order, done, now, ok, calls, ctx, net) && ch in start.pending && ch !in done
    ensures forall ps :: SortedBySequence(ps) && multiset(ps) == multiset(start.pending[ch])
                         && (Increasing(Seqs(start.pending[ch])) ==> ps == start.pending[ch]) ==>
              Underway(start, arranged[ch := ps], order + [ch], done + {ch},
                       PassChannel(Rearranged(now, ch, ps), ch, ctx, net),
                       ok && PassOver(net, ctx, ps).finished, calls + PassOver(net, ctx, ps).calls, ctx, net)
  {
    hide PassChannel, PassInOrder, PassOver, Underway, SortedBySequence, Increasing;
    forall ps | SortedBySequence(ps) && multiset(ps) == multiset(start.pending[ch])
                && (Increasing(Seqs(start.pending[ch])) ==> ps == start.pending[ch])
      ensures Underway(start, arranged[ch := ps], order + [ch], done + {ch},
                       PassChannel(Rearranged(now, ch, ps), ch, ctx, net),
                       ok && PassOver(net, ctx, ps).finished, calls + PassOver(net, ctx, ps).calls, ctx, net)
    {
      AdvancedBy(start, arranged, order, done, now, ok, calls, ctx, net, ch, ps);
    }
  }

  lemma AdvancedBy(start: State, arranged: Queues, order: seq<Channel>, done: set<Channel>, now: State,
                   ok: bool, calls: nat, ctx: Ctx, net: Net, ch: Channel, ps: seq<Packet>)
    requires Underway(start, arranged, order, done, now, ok, calls, ctx, net) && ch in start.pending && ch !in done
    requires SortedBySequence(ps) && multiset(ps) == multiset(start.pending[ch])
    requires Increasing(Seqs(start.pending[ch])) ==> ps == start.pending[ch]
    ensures Underway(start, arranged[ch := ps], order + [ch], done + {ch},
                     PassChannel(Rearranged(now, ch, ps), ch, ctx, net),
                     ok && PassOver(net, ctx, ps).finished, calls + PassOver(net, ctx, ps).calls, ctx, net)
  {
    hide PassChannel, PassInOrder, PassOver, SortedBySequence, Increasing, EachOnce, CallsAt, Sum, IsArrangement;
    var before, after := start.(pending := arranged), start.(pending := arranged[ch := ps]);
    OnceMore(order, done, ch);
    OneArranged(start.pending, arranged, ch, ps);
    LeftStays(Rearranged(now, ch, ps), ch, ctx, net, start.pending, start.pending.Keys - done - {ch});
    RearrangeLater(before, order, done, ch, ps, ctx, net);
    PassNext(after, order, ch, ctx, net);
    OneMoreCounted(before, done, ch, ps, ctx, net);
  }

  lemma Ended(start: State, arranged: Queues, order: seq<Channel>, now: State, ok: bool, calls: nat, ctx: Ctx, net: Net)
    requires Underway(start, arranged, order, start.pending.Keys, now, ok, calls, ctx, net)
    ensures EachOnce(order, start.pending.Keys) && IsArrangement(arranged, start.pending)
    ensures Ordered(start) ==> arranged == start.pending
    ensures now == PassInOrder(start.(pending := arranged), order, ctx, net)
    ensures ok <==> forall ch :: ch in arranged ==> PassOver(net, ctx, arranged[ch]).finished
    ensures calls == PassCalls(start.(pending := arranged), ctx, net)
  {
    hide PassInOrder, PassOver, EachOnce, CallsAt, Sum;
    if Ordered(start) {
      OrderedArrangement(start, arranged);
    }
  }

  /** A queue and what sorting may make of it. */
  ghost predicate Arranged(ps: seq<Packet>, was: seq<Packet>) {
    multiset(ps) == multiset(was) && (Increasing(Seqs(was)) ==> ps == was) && (ps == was || SortedBySequence(ps))
  }

  ghost predicate IsArrangement(queues: Queues, was: Queues) {
    queues.Keys == was.Keys && forall ch :: ch in was ==> Arranged(queues[ch], was[ch])
  }

  lemma AlreadyArranged(queues: Queues)
    ensures IsArrangement(queues, queues)
  {
  }

  lemma OneArranged(was: Queues, queues: Queues, ch: Channel, ps: seq<Packet>)
    requires IsArrangement(queues, was) && ch in was
    requires SortedBySequence(ps) && multiset(ps) == multiset(was[ch]) && (Increasing(Seqs(was[ch])) ==> ps == was[ch])
    ensures IsArrangement(queues[ch := ps], was)
  {
  }

  lemma OrderedArrangement(st: State, queues: Queues)
    requires Ordered(st) && IsArrangement(queues, st.pending)
    ensures queues == st.pending
  {
  }

  /** Sorting the queue of a channel that is not passed over may as well come first. */
  lemma {:induction false} RearrangeLater(st: State, order: seq<Channel>, done: set<Channel>, ch: Channel,
                                          ps: seq<Packet>, ctx: Ctx, net: Net)
    requires EachOnce(order, done) && ch !in done
    ensures PassInOrder(st.(pending := st.pending[ch := ps]), order, ctx, net)
         == Rearranged(PassInOrder(st, order, ctx, net), ch, ps)
    decreases |order|
  {
    hide PassChannel;
    if order != [] {
      var init, c := order[..|order| - 1], order[|order| - 1];
      assert c in order && order == init + [c];
      assert EachOnce(init, done - {c});
      RearrangeLater(st, init, done - {c}, ch, ps, ctx, net);
      PassThenRearrange(PassInOrder(st, init, ctx, net), c, ch, ps, ctx, net);
    }
  }

  lemma PassThenRearrange(st: State, c: Channel, ch: Channel, ps: seq<Packet>, ctx: Ctx, net: Net)
    requires c != ch
    ensures PassChannel(Rearranged(st, ch, ps), c, ctx, net) == Rearranged(PassChannel(st, c, ctx, net), ch, ps)
  {
    hide PassOver;
    var r := PassOver(net, ctx, Queue(st, c));
    assert st.pending[ch := ps][c := r.kept] == st.pending[c := r.kept][ch := ps];
    assert st.pending[ch := ps] - {c} == (st.pending - {c})[ch := ps];
  }

  lemma OneMoreCounted(st: State, done: set<Channel>, ch: Channel, ps: seq<Packet>, ctx: Ctx, net: Net)
    requires ch !in done
    ensures Sum(done + {ch}, CallsAt(st.(pending := st.pending[ch := ps]), ctx, net))
         == Sum(done, CallsAt(st, ctx, net)) + PassOver(net, ctx, ps).calls
  {
    var f, g := CallsAt(st, ctx, net), CallsAt(st.(pending := st.pending[ch := ps]), ctx, net);
    assert forall c :: c in done ==> f(c) == g(c);
    assert g(ch) == PassOver(net, ctx, ps).calls;
    SumWithout(done + {ch}, g, ch);
    assert done + {ch} - {ch} == done;
    SumEqual(done, f, g);
  }

  /** The packets waiting for a channel, put in another order. */
  function Rearranged(st: State, ch: Channel, ps: seq<Packet>): State {
    st.(pending := st.pending[ch := ps])
  }

  lemma JoinNothing(r: Pass)
    ensures Joined(Pass(true, [], [], [], 0), r) == r
  {
  }

  lemma JoinEnd(r: Pass, finished: bool)
    ensures Joined(r, Pass(finished, [], [], [], 0)) == r.(finished := finished)
  {
  }

  lemma JoinThrice(a: Pass, b: Pass, c: Pass)
    ensures Joined(Joined(a, b), c) == Joined(a, Joined(b, c))
  {
    assert a.kept + b.kept + c.kept == a.kept + (b.kept + c.kept);
    assert a.acks + b.acks + c.acks == a.acks + (b.acks + c.acks);
    assert a.timeouts + b.timeouts + c.timeouts == a.timeouts + (b.timeouts + c.timeouts);
  }

  lemma PassNext(st: State, order: seq<Channel>, ch: Channel, ctx: Ctx, net: Net)
    ensures PassInOrder(st, order + [ch], ctx, net) == PassChannel(PassInOrder(st, order, ctx, net), ch, ctx, net)
  {
    assert (order + [ch])[..|order|] == order;
  }

  lemma OnceMore(order: seq<Channel>, done: set<Channel>, ch: Channel)
    requires EachOnce(order, done) && ch !in done
    ensures EachOnce(order + [ch], done + {ch})
  {
    assert ch !in order;
  }

  /** A pass over one channel leaves the queues of the others. */
  lemma LeftStays(st: State, ch: Channel, ctx: Ctx, net: Net, snapshot: Queues, left: set<Channel>)
    requires ch !in left && left <= snapshot.Keys
    requires forall c :: c in left ==> c in st.pending && st.pending[c] == snapshot[c]
    ensures var after := PassChannel(st, ch, ctx, net).pending;
            forall c :: c in left ==> c in after && after[c] == snapshot[c]
  {
  }

  lemma AppendNothing(log: Logs, ch: Channel)
    ensures Append(log, ch, []) == log
  {
  }

  lemma AppendTwice(log: Logs, ch: Channel, a: seq<uint64>, b: seq<uint64>)
    ensures Append(Append(log, ch, a), ch, b) == Append(log, ch, a + b)
  {
    if a == [] {
      assert a + b == b;
    } else if b == [] {
      assert a + b == a;
    } else {
      assert LogOf(log, ch) + a + b == LogOf(log, ch) + (a + b);
    }
  }

  /** Sorting a queue that is already strictly increasing changes nothing. */
  lemma {:induction false} SortIsIdentity(ps: seq<Packet>, r: seq<Packet>)
    requires Increasing(Seqs(ps)) && SortedBySequence(r) && multiset(r) == multiset(ps)
    ensures r == ps
    decreases |ps|
  {
    hide Increasing, SortedBySequence;
    SameLength(ps, r);
    if ps != [] {
      var n := |ps| - 1;
      PeelLast(ps, r);
      SortIsIdentity(ps[..n], r[..n]);
      assert ps == ps[..n] + [ps[n]] && r == r[..n] + [r[n]];
    }
  }

  lemma SameLength(ps: seq<Packet>, r: seq<Packet>)
    requires multiset(r) == multiset(ps)
    ensures |r| == |ps|
  {
    assert |multiset(r)| == |r| && |multiset(ps)| == |ps|;
  }

  lemma PeelLast(ps: seq<Packet>, r: seq<Packet>)
    requires ps != [] && |r| == |ps|
    requires Increasing(Seqs(ps)) && SortedBySequence(r) && multiset(r) == multiset(ps)
    ensures var n := |ps| - 1;
            && r[n] == ps[n] && multiset(r[..n]) == multiset(ps[..n])
            && Increasing(Seqs(ps[..n])) && SortedBySequence(r[..n])
  {
    LastIsLargest(ps, r);
    WithoutLast(ps);
    WithoutLast(r);
    var n := |ps| - 1;
    assert Seqs(ps[..n]) == Seqs(ps)[..n];
  }

  lemma WithoutLast(ps: seq<Packet>)
    requires ps != []
    ensures multiset(ps[..|ps| - 1]) == multiset(ps) - multiset{ps[|ps| - 1]}
  {
    assert ps == ps[..|ps| - 1] + [ps[|ps| - 1]];
  }

  lemma LastIsLargest(ps: seq<Packet>, r: seq<Packet>)
    requires ps != [] && |r| == |ps|
    requires Increasing(Seqs(ps)) && SortedBySequence(r) && multiset(r) == multiset(ps)
    ensures r[|r| - 1] == ps[|ps| - 1]
  {
    var n := |ps| - 1;
    assert ps[n] in multiset(r) && r[n] in multiset(ps);
    var i :| 0 <= i < |r| && r[i] == ps[n];
    var j :| 0 <= j < |ps| && ps[j] == r[n];
    assert Seqs(ps)[j] <= Seqs(ps)[n];
  }
}
