/** How often a packet is tried: bounds on the passes and the relay calls of whole runs. */
module RetryLaws {
  import opened Bytes
  import opened Relay
  import opened RelayLaws

  // ---------- one queue on its own ----------

  datatype Round = Round(ctx: Ctx, net: Net)

  /** A queue after some passes with nothing arriving, and the relay calls they made. */
  function QueueAfter(ps: seq<Packet>, rounds: seq<Round>): seq<Packet>
    decreases |rounds|, 1
  {
    if rounds == [] then ps else LastPass(ps, rounds).kept
  }

  function CallsOver(ps: seq<Packet>, rounds: seq<Round>): nat {
    if rounds == [] then 0 else CallsOver(ps, rounds[..|rounds| - 1]) + LastPass(ps, rounds).calls
  }

  function LastPass(ps: seq<Packet>, rounds: seq<Round>): Pass
    requires rounds != []
    decreases |rounds|, 0
  {
    var n := |rounds| - 1;
    PassOver(rounds[n].net, rounds[n].ctx, QueueAfter(ps, rounds[..n]))
  }

  predicate AllFinish(ps: seq<Packet>, rounds: seq<Round>) {
    rounds != [] ==> LastPass(ps, rounds).finished && AllFinish(ps, rounds[..|rounds| - 1])
  }

  /** How many passes a packet can still see. */
  function PassesLeft(p: Packet): nat {
    if p.retryCount >= MAX_RETRIES then 1 else MAX_RETRIES + 1 - p.retryCount
  }

  /** Six calls for each of them. */
  function Budget(ps: seq<Packet>): nat {
    if ps == [] then 0 else (MAX_RETRIES + 1) * PassesLeft(ps[0]) + Budget(ps[1..])
  }

  lemma {:induction false} BudgetAppend(a: seq<Packet>, b: seq<Packet>)
    ensures Budget(a + b) == Budget(a) + Budget(b)
    decreases |a|
  {
    if a == [] {
      assert a + b == b;
    } else {
      BudgetAppend(a[1..], b);
      assert (a + b)[1..] == a[1..] + b;
    }
  }

  /** A completed pass pays for its calls: every kept packet has one pass fewer. */
  lemma {:induction false} PassPays(net: Net, ctx: Ctx, ps: seq<Packet>)
    requires PassOver(net, ctx, ps).finished
    ensures var r := PassOver(net, ctx, ps); r.calls + Budget(r.kept) <= Budget(ps)
    ensures forall p :: p in PassOver(net, ctx, ps).kept ==> exists q :: q in ps && PassesLeft(p) + 1 == PassesLeft(q)
    decreases |ps|
  {
    if ps != [] {
      var p := ps[0];
      PassPays(net, ctx, ps[1..]);
      AttemptsMeaning(net, p, 0);
      var one, rest := Single(net, ctx, p), PassOver(net, ctx, ps[1..]);
      BudgetAppend(one.kept, rest.kept);
      assert one.calls + Budget(one.kept) <= (MAX_RETRIES + 1) * PassesLeft(p);
      forall k | k in one.kept + rest.kept
        ensures exists q :: q in ps && PassesLeft(k) + 1 == PassesLeft(q)
      {
        if k in one.kept {
          assert PassesLeft(k) + 1 == PassesLeft(p) && p in ps;
        }
      }
    }
  }

  /** The calls made and the budget left never exceed the budget at the start. */
  lemma {:induction false} CallsBounded(ps: seq<Packet>, rounds: seq<Round>)
    requires AllFinish(ps, rounds)
    ensures CallsOver(ps, rounds) + Budget(QueueAfter(ps, rounds)) <= Budget(ps)
    decreases |rounds|
  {
    hide Budget, PassOver;
    if rounds != [] {
      var n := |rounds| - 1;
      CallsBounded(ps, rounds[..n]);
      PassPays(rounds[n].net, rounds[n].ctx, QueueAfter(ps, rounds[..n]));
    }
  }

  /** Every round that a packet stays for costs it a pass. */
  lemma {:induction false} QueueDrains(ps: seq<Packet>, rounds: seq<Round>)
    requires AllFinish(ps, rounds)
    ensures forall p :: p in QueueAfter(ps, rounds) ==> exists q :: q in ps && PassesLeft(p) + |rounds| == PassesLeft(q)
    decreases |rounds|
  {
    hide PassOver, PassesLeft;
    if rounds != [] {
      var n := |rounds| - 1;
      QueueDrains(ps, rounds[..n]);
      PassPays(rounds[n].net, rounds[n].ctx, QueueAfter(ps, rounds[..n]));
    }
  }

  // ---------- packets of one queue do not affect each other ----------

  /** A completed pass over a + b is the two passes joined. */
  lemma {:induction false} PassSplits(net: Net, ctx: Ctx, a: seq<Packet>, b: seq<Packet>)
    requires PassOver(net, ctx, a).finished
    ensures PassOver(net, ctx, a + b) == Joined(PassOver(net, ctx, a), PassOver(net, ctx, b))
    decreases |a|
  {
    hide Single;
    if a == [] {
      assert a + b == b;
      JoinNothing(PassOver(net, ctx, b));
    } else {
      assert (a + b)[1..] == a[1..] + b && (a + b)[0] == a[0];
      PassSplits(net, ctx, a[1..], b);
      JoinThrice(Single(net, ctx, a[0]), PassOver(net, ctx, a[1..]), PassOver(net, ctx, b));
    }
  }

  lemma FinishedParts(net: Net, ctx: Ctx, a: seq<Packet>, b: seq<Packet>)
    ensures PassOver(net, ctx, a + b).finished <==> PassOver(net, ctx, a).finished && PassOver(net, ctx, b).finished
  {
    hide PassOver;
    FinishedMeaning(net, ctx, a);
    FinishedMeaning(net, ctx, b);
    FinishedMeaning(net, ctx, a + b);
  }

  /** And completed rounds over a + b are the rounds over each, their calls added up. */
  lemma {:induction false} RoundsSplit(a: seq<Packet>, b: seq<Packet>, rounds: seq<Round>)
    requires AllFinish(a + b, rounds)
    ensures AllFinish(a, rounds) && AllFinish(b, rounds)
    ensures QueueAfter(a + b, rounds) == QueueAfter(a, rounds) + QueueAfter(b, rounds)
    ensures CallsOver(a + b, rounds) == CallsOver(a, rounds) + CallsOver(b, rounds)
    decreases |rounds|
  {
    hide PassOver;
    if rounds != [] {
      var n := |rounds| - 1;
      RoundsSplit(a, b, rounds[..n]);
      var a', b' := QueueAfter(a, rounds[..n]), QueueAfter(b, rounds[..n]);
      FinishedParts(rounds[n].net, rounds[n].ctx, a', b');
      PassSplits(rounds[n].net, rounds[n].ctx, a', b');
    }
  }

  /** A packet costs at most six calls for each pass it can still see, 36 if it has not been retried yet,
      wherever it stands in the queue. */
  lemma CallsPerPacket(a: seq<Packet>, p: Packet, b: seq<Packet>, rounds: seq<Round>)
    requires AllFinish(a + [p] + b, rounds)
    ensures CallsOver(a + [p] + b, rounds) == CallsOver(a, rounds) + CallsOver([p], rounds) + CallsOver(b, rounds)
    ensures CallsOver([p], rounds) <= 6 * PassesLeft(p)
    ensures p.retryCount >= 0 ==> CallsOver([p], rounds) <= 36
  {
    hide CallsOver, QueueAfter, AllFinish;
    RoundsSplit(a + [p], b, rounds);
    RoundsSplit(a, [p], rounds);
    CallsBounded([p], rounds);
    assert Budget([p]) == 6 * PassesLeft(p);
  }

  // ---------- the handler over whole runs ----------

  /** Every pass of an event gets to the end of its queue. */
  ghost predicate Completes(st: State, e: Event) {
    forall ch :: ch in st.pending ==> Finishes(st, e, ch)
  }

  ghost predicate CompleteRun(st: State, events: seq<Event>) {
    && PossibleRun(st, events)
    && forall i :: 0 <= i < |events| ==> Completes(AfterAll(st, events[..i]), events[i])
  }

  /** Nothing arrives. */
  predicate Quiet(events: seq<Event>) {
    forall i :: 0 <= i < |events| ==> events[i].Process?
  }

  function Rounds(events: seq<Event>): seq<Round>
    requires Quiet(events)
  {
    seq(|events|, i requires 0 <= i < |events| => Round(events[i].ctx, events[i].net))
  }

  ghost function EventCalls(st: State, e: Event): nat {
    if e.Process? then PassCalls(st, e.ctx, e.net) else 0
  }

  /** The relay calls of a run, over all channels. */
  ghost function CallsIn(st: State, events: seq<Event>): nat {
    if events == [] then 0
    else
      var init := events[..|events| - 1];
      CallsIn(st, init) + EventCalls(AfterAll(st, init), events[|events| - 1])
  }

  lemma PrefixComplete(st: State, events: seq<Event>)
    requires CompleteRun(st, events) && events != []
    ensures var n := |events| - 1;
            && CompleteRun(st, events[..n]) && Possible(AfterAll(st, events[..n]), events[n])
            && Completes(AfterAll(st, events[..n]), events[n])
  {
    hide AfterAll;
    PrefixPossible(st, events);
    var n := |events| - 1;
    assert forall i :: 0 <= i < n ==> events[..n][..i] == events[..i];
  }

  /** What a whole pass leaves of a channel's queue. */
  lemma QueueAfterPass(st: State, e: Event, ch: Channel)
    requires e.Process? && Possible(st, e) && Completes(st, e)
    ensures PassOver(e.net, e.ctx, Queue(st, ch)).finished
    ensures Queue(After(st, e), ch) == PassOver(e.net, e.ctx, Queue(st, ch)).kept
    ensures ch in After(st, e).pending ==> Queue(After(st, e), ch) != [] && ch in st.pending
  {
    assert ch !in st.pending ==> PassOver(e.net, e.ctx, []).finished && PassOver(e.net, e.ctx, []).kept == [];
    assert ch in st.pending ==> Finishes(st, e, ch);
    hide PassInOrder, PassOver, Append;
    EachAlone(st, e.order, e.ctx, e.net, ch);
    var alone := if ch in e.order then PassChannel(st, ch, e.ctx, e.net) else st;
    assert Find(After(st, e).pending, ch) == Find(alone.pending, ch);
  }

  /** Over a run of completed passes each channel's queue goes its own way. */
  lemma {:induction false} QueueOverRun(st: State, events: seq<Event>, ch: Channel)
    requires Quiet(events) && CompleteRun(st, events)
    ensures Queue(AfterAll(st, events), ch) == QueueAfter(Queue(st, ch), Rounds(events))
    ensures AllFinish(Queue(st, ch), Rounds(events))
    decreases |events|
  {
    hide PassOver, After;
    if events != [] {
      var n := |events| - 1;
      PrefixComplete(st, events);
      QueueOverRun(st, events[..n], ch);
      QueueAfterPass(AfterAll(st, events[..n]), events[n], ch);
      assert Rounds(events)[..n] == Rounds(events[..n]);
    }
  }

  /** Six completed calls of ProcessPackets with no arrivals empty every queue of packets that have not been
      retried before, and as many as its packets have passes left any other. */
  lemma RetryBound(st: State, events: seq<Event>)
    requires Quiet(events) && CompleteRun(st, events) && events != []
    requires forall ch, p :: ch in st.pending && p in st.pending[ch] ==> PassesLeft(p) <= |events|
    ensures AfterAll(st, events).pending == map[]
  {
    var n := |events| - 1;
    var mid, end := AfterAll(st, events[..n]), AfterAll(st, events);
    PrefixComplete(st, events);
    hide AfterAll, QueueAfter;
    forall ch | ch in end.pending
      ensures false
    {
      assert end == After(mid, events[n]) by { LastEvent(st, events); }
      QueueAfterPass(mid, events[n], ch);
      QueueOverRun(st, events, ch);
      QueueDrains(Queue(st, ch), Rounds(events));
      HasMember(Queue(end, ch));
    }
  }

  lemma LastEvent(st: State, events: seq<Event>)
    requires events != []
    ensures AfterAll(st, events) == After(AfterAll(st, events[..|events| - 1]), events[|events| - 1])
  {
  }

  lemma SixPassesEmptyAll(st: State, events: seq<Event>)
    requires Quiet(events) && CompleteRun(st, events) && |events| >= 6
    requires forall ch, p :: ch in st.pending && p in st.pending[ch] ==> p.retryCount >= 0
    ensures AfterAll(st, events).pending == map[]
  {
    RetryBound(st, events);
  }

  // ---------- the calls of a run ----------

  lemma {:induction false} SumAtMost(chs: set<Channel>, f: Channel -> nat, g: Channel -> nat, h: Channel -> nat)
    requires forall ch :: ch in chs ==> f(ch) + g(ch) <= h(ch)
    ensures Sum(chs, f) + Sum(chs, g) <= Sum(chs, h)
    decreases |chs|
  {
    if chs != {} {
      var ch :| ch in chs;
      SumWithout(chs, f, ch);
      SumWithout(chs, g, ch);
      SumWithout(chs, h, ch);
      SumAtMost(chs - {ch}, f, g, h);
    }
  }

  lemma {:induction false} SumOfSums(chs: set<Channel>, f: Channel -> nat, g: Channel -> nat, h: Channel -> nat)
    requires forall ch :: ch in chs ==> f(ch) + g(ch) == h(ch)
    ensures Sum(chs, f) + Sum(chs, g) == Sum(chs, h)
    decreases |chs|
  {
    if chs != {} {
      var ch :| ch in chs;
      SumWithout(chs, f, ch);
      SumWithout(chs, g, ch);
      SumWithout(chs, h, ch);
      SumOfSums(chs - {ch}, f, g, h);
    }
  }

  /** Channels without a share may be left out of a sum. */
  lemma {:induction false} SumOverFewer(few: set<Channel>, chs: set<Channel>, f: Channel -> nat)
    requires few <= chs && forall ch :: ch in chs && ch !in few ==> f(ch) == 0
    ensures Sum(few, f) == Sum(chs, f)
    decreases |chs - few|
  {
    if few != chs {
      var ch :| ch in chs && ch !in few;
      SumWithout(chs, f, ch);
      SumOverFewer(few, chs - {ch}, f);
    }
  }

  function BudgetAt(st: State): Channel -> nat {
    (ch: Channel) => Budget(Queue(st, ch))
  }

  /** The budget of all queues together. */
  ghost function TotalBudget(st: State): nat {
    Sum(st.pending.Keys, BudgetAt(st))
  }

  /** What an accepted packet brings along. */
  function Brought(st: State, e: Event): nat {
    if e.Arrive? && Answer(st, e.ctx, e.packet) == Accepted then 6 * PassesLeft(e.packet) else 0
  }

  function BroughtIn(st: State, events: seq<Event>): nat {
    if events == [] then 0
    else
      var init := events[..|events| - 1];
      BroughtIn(st, init) + Brought(AfterAll(st, init), events[|events| - 1])
  }

  lemma ArrivalPays(st: State, ctx: Ctx, p: Packet)
    ensures TotalBudget(Enqueued(st, ctx, p)) == TotalBudget(st) + 6 * PassesLeft(p)
  {
    var st', ch := Enqueued(st, ctx, p), ChannelOf(p);
    var f, g := BudgetAt(st), BudgetAt(st');
    BudgetAppend(Queue(st, ch), [Stamped(ctx, p)]);
    assert Budget([Stamped(ctx, p)]) == 6 * PassesLeft(p);
    assert Queue(st', ch) == Queue(st, ch) + [Stamped(ctx, p)];
    assert g(ch) == f(ch) + 6 * PassesLeft(p);
    hide Budget, PassesLeft;
    SumOverFewer(st.pending.Keys, st'.pending.Keys, f) by { NoBudget(); }
    SumWithout(st'.pending.Keys, f, ch);
    SumWithout(st'.pending.Keys, g, ch);
    SumEqual(st'.pending.Keys - {ch}, f, g);
  }

  lemma NoBudget()
    ensures Budget([]) == 0
  {
  }

  lemma ProcessPays(st: State, e: Event)
    requires e.Process? && Possible(st, e) && Completes(st, e)
    ensures PassCalls(st, e.ctx, e.net) + TotalBudget(After(st, e)) <= TotalBudget(st)
  {
    var st' := After(st, e);
    var calls, f, g := CallsAt(st, e.ctx, e.net), BudgetAt(st), BudgetAt(st');
    hide After, PassOver, Budget;
    forall ch
      ensures ch in st'.pending ==> ch in st.pending
      ensures ch !in st'.pending ==> g(ch) == 0
      ensures calls(ch) + g(ch) <= f(ch)
    {
      QueueAfterPass(st, e, ch);
      PassPays(e.net, e.ctx, Queue(st, ch));
      NoBudget();
    }
    SumAtMost(st.pending.Keys, calls, g, f);
    SumOverFewer(st'.pending.Keys, st.pending.Keys, g);
  }

  /** The relay calls of any run of completed passes, arrivals included, are paid for: with the budget left
      they come to no more than the budget at the start and what the accepted packets have brought. */
  lemma {:induction false} RunPays(st: State, events: seq<Event>)
    requires CompleteRun(st, events)
    ensures CallsIn(st, events) + TotalBudget(AfterAll(st, events)) <= TotalBudget(st) + BroughtIn(st, events)
    decreases |events|
  {
    hide After, TotalBudget, PassCalls, Answer, Enqueued, PassesLeft, Completes;
    if events != [] {
      var n := |events| - 1;
      PrefixComplete(st, events);
      RunPays(st, events[..n]);
      EventPays(AfterAll(st, events[..n]), events[n]);
    }
  }

  lemma EventPays(st: State, e: Event)
    requires Possible(st, e) && Completes(st, e)
    ensures EventCalls(st, e) + TotalBudget(After(st, e)) <= TotalBudget(st) + Brought(st, e)
  {
    hide TotalBudget, PassCalls, Answer, Enqueued, PassesLeft, Completes, PassInOrder;
    match e
    case Arrive(ctx, p) => ArrivalPays(st, ctx, p);
    case Process(_, _, _) => ProcessPays(st, e);
  }

  function CallsOfQueue(st: State, rounds: seq<Round>): Channel -> nat {
    (ch: Channel) => CallsOver(Queue(st, ch), rounds)
  }

  /** The calls for one channel, without and with the last pass. */
  lemma LastCalls(st: State, events: seq<Event>, ch: Channel)
    requires Quiet(events) && CompleteRun(st, events) && events != []
    ensures var n := |events| - 1;
            var mid, e := AfterAll(st, events[..n]), events[n];
            && CallsOfQueue(st, Rounds(events[..n]))(ch) + CallsAt(mid, e.ctx, e.net)(ch)
               == CallsOfQueue(st, Rounds(events))(ch)
            && (ch !in mid.pending ==> CallsAt(mid, e.ctx, e.net)(ch) == 0)
            && (ch in AfterAll(st, events).pending ==> ch in mid.pending)
  {
    var n := |events| - 1;
    var mid, e := AfterAll(st, events[..n]), events[n];
    assert PassOver(e.net, e.ctx, []).calls == 0;
    hide PassOver, After;
    PrefixComplete(st, events);
    QueueOverRun(st, events[..n], ch);
    QueueAfterPass(mid, e, ch);
    assert Rounds(events)[..n] == Rounds(events[..n]);
  }

  /** With no arrivals the calls of a run are those of the single queues, summed up. */
  lemma {:induction false} CallsOverRun(st: State, events: seq<Event>)
    requires Quiet(events) && CompleteRun(st, events)
    ensures AfterAll(st, events).pending.Keys <= st.pending.Keys
    ensures CallsIn(st, events) == Sum(st.pending.Keys, CallsOfQueue(st, Rounds(events)))
    decreases |events|
  {
    var keys := st.pending.Keys;
    if events == [] {
      NothingToSum(keys, CallsOfQueue(st, Rounds(events)));
    } else {
      var n := |events| - 1;
      var mid, e := AfterAll(st, events[..n]), events[n];
      PrefixComplete(st, events);
      CallsOverRun(st, events[..n]);
      hide AfterAll, CallsOfQueue, CallsAt, CompleteRun, Rounds;
      var f, g := CallsOfQueue(st, Rounds(events[..n])), CallsAt(mid, e.ctx, e.net);
      var h := CallsOfQueue(st, Rounds(events));
      forall ch
        ensures f(ch) + g(ch) == h(ch)
        ensures ch !in mid.pending ==> g(ch) == 0
        ensures ch in AfterAll(st, events).pending ==> ch in mid.pending
      {
        LastCalls(st, events, ch);
      }
      SumOfSums(keys, f, g, h);
      SumOverFewer(mid.pending.Keys, keys, g);
    }
  }

  lemma {:induction false} NothingToSum(chs: set<Channel>, f: Channel -> nat)
    requires forall ch :: ch in chs ==> f(ch) == 0
    ensures Sum(chs, f) == 0
    decreases |chs|
  {
    if chs != {} {
      var ch :| ch in chs;
      SumWithout(chs, f, ch);
      NothingToSum(chs - {ch}, f);
    }
  }

  // ---------- without completion there is no bound ----------

  /** A network that relays everything, in a context that is cancelled before packet q. */
  function CancelledAt(q: Packet): Net {
    Net((_, _) => true, x => x == q, (_, _) => false)
  }

  function Repeated<T>(x: T, n: nat): seq<T> {
    if n == 0 then [] else Repeated(x, n - 1) + [x]
  }

  /** Cancelled passes may go on for ever: each relays p, logs it, and leaves it in the queue. */
  lemma CancelledPassesRepeat(p: Packet, q: Packet, ctx: Ctx, ch: Channel, n: nat)
    requires p != q && !HasTimedOut(ctx, p)
    ensures var st := State(map[ch := [p, q]], map[], map[]);
            var run := Repeated(Process(ctx, CancelledAt(q), [ch]), n);
            Stuck(st, run, ch, p.sequence, n)
  {
    hide PassOver, Stuck;
    PassUpTo(p, q, ctx);
    PassesRepeat(State(map[ch := [p, q]], map[], map[]), ch, [p, q], ctx, CancelledAt(q), p.sequence, n);
  }

  /** After the run the queues are as before, and n calls have logged sequence number s for the channel. */
  ghost predicate Stuck(st: State, run: seq<Event>, ch: Channel, s: uint64, n: nat) {
    && PossibleRun(st, run) && CallsIn(st, run) == n
    && AfterAll(st, run).pending == st.pending
    && LogOf(AfterAll(st, run).acks, ch) == Repeated(s, n)
  }

  lemma {:induction false} PassesRepeat(st: State, ch: Channel, ps: seq<Packet>, ctx: Ctx, net: Net, s: uint64, n: nat)
    requires PassOver(net, ctx, ps) == Pass(false, [], [s], [], 1)
    requires st.pending == map[ch := ps] && LogOf(st.acks, ch) == []
    ensures Stuck(st, Repeated(Process(ctx, net, [ch]), n), ch, s, n)
    decreases n
  {
    hide PassOver, Stuck;
    var e := Process(ctx, net, [ch]);
    if n == 0 {
      NothingYet(st, ch, s);
    } else {
      PassesRepeat(st, ch, ps, ctx, net, s, n - 1);
      StillStuck(st, Repeated(e, n - 1), ch, ps, ctx, net, s, n - 1);
    }
  }

  lemma NothingYet(st: State, ch: Channel, s: uint64)
    requires LogOf(st.acks, ch) == []
    ensures Stuck(st, [], ch, s, 0)
  {
  }

  lemma StillStuck(st: State, run: seq<Event>, ch: Channel, ps: seq<Packet>, ctx: Ctx, net: Net, s: uint64, n: nat)
    requires PassOver(net, ctx, ps) == Pass(false, [], [s], [], 1) && st.pending == map[ch := ps]
    requires Stuck(st, run, ch, s, n)
    ensures Stuck(st, run + [Process(ctx, net, [ch])], ch, s, n + 1)
  {
    hide PassOver, AfterAll, CallsIn, PossibleRun, Possible, EventCalls, After;
    var e := Process(ctx, net, [ch]);
    CancelledPass(AfterAll(st, run), ch, ps, ctx, net, s);
    OneMoreEvent(st, run, e);
    assert Repeated(s, n + 1) == Repeated(s, n) + [s];
  }

  lemma OneMoreEvent(st: State, init: seq<Event>, e: Event)
    ensures AfterAll(st, init + [e]) == After(AfterAll(st, init), e)
    ensures CallsIn(st, init + [e]) == CallsIn(st, init) + EventCalls(AfterAll(st, init), e)
    ensures PossibleRun(st, init) && Possible(AfterAll(st, init), e) ==> PossibleRun(st, init + [e])
  {
    var run := init + [e];
    assert run[..|init|] == init;
    assert forall i :: 0 <= i < |init| ==> run[..i] == init[..i] && run[i] == init[i];
  }

  lemma CancelledPass(st: State, ch: Channel, ps: seq<Packet>, ctx: Ctx, net: Net, s: uint64)
    requires PassOver(net, ctx, ps) == Pass(false, [], [s], [], 1) && st.pending == map[ch := ps]
    ensures var e := Process(ctx, net, [ch]);
            && Possible(st, e) && EventCalls(st, e) == 1
            && After(st, e).pending == st.pending
            && LogOf(After(st, e).acks, ch) == LogOf(st.acks, ch) + [s]
  {
    hide PassOver;
    assert Queue(st, ch) == ps && st.pending.Keys == {ch};
    LoneCalls(st, ch, ctx, net);
    OneChannel(st, ch, ctx, net);
    hide PassInOrder, PassCalls;
  }

  lemma PassUpTo(p: Packet, q: Packet, ctx: Ctx)
    requires p != q && !HasTimedOut(ctx, p)
    ensures PassOver(CancelledAt(q), ctx, [p, q]) == Pass(false, [], [p.sequence], [], 1)
  {
    OneRelayed(CancelledAt(q), ctx, p);
    assert [p, q][1..] == [q];
    assert PassOver(CancelledAt(q), ctx, [q]) == Pass(false, [], [], [], 0);
    hide Single;
  }

  lemma LoneCalls(st: State, ch: Channel, ctx: Ctx, net: Net)
    requires st.pending.Keys == {ch}
    ensures PassCalls(st, ctx, net) == PassOver(net, ctx, Queue(st, ch)).calls
  {
    hide PassOver;
    SumWithout({ch}, CallsAt(st, ctx, net), ch);
  }

  // ---------- the bound is met ----------

  /** A network that relays nothing, in a context that is never cancelled. */
  ghost predicate AlwaysFails(net: Net) {
    (forall p, a :: !net.relays(p, a) && !net.stopped(p, a)) && forall p :: !net.halted(p)
  }

  /** A packet without limits that no attempt ever relays stays through n < 6 passes, with six calls in
      each, and goes with the sixth. */
  lemma {:induction false} BoundIsReached(p: Packet, ctx: Ctx, net: Net, n: nat)
    requires 0 <= p.retryCount <= MAX_RETRIES && p.retryCount + n <= MAX_RETRIES + 1
    requires p.timeoutHeight == Height(0, 0) && p.timeoutTimestamp == 0
    requires AlwaysFails(net)
    ensures var rounds := seq(n, _ => Round(ctx, net));
            && CallsOver([p], rounds) == 6 * n && AllFinish([p], rounds)
            && QueueAfter([p], rounds)
               == if p.retryCount + n <= MAX_RETRIES then [p.(retryCount := p.retryCount + n)] else []
    decreases n
  {
    hide PassOver, AlwaysFails;
    if n > 0 {
      var rounds := seq(n, _ => Round(ctx, net));
      assert rounds[..n - 1] == seq(n - 1, _ => Round(ctx, net));
      BoundIsReached(p, ctx, net, n - 1);
      LoneFailure(p.(retryCount := p.retryCount + n - 1), ctx, net);
    }
  }

  /** So it does for the handler: with this packet alone waiting, six passes make 36 calls. */
  lemma BoundIsReachedByHandler(p: Packet, ctx: Ctx, net: Net, ch: Channel, events: seq<Event>)
    requires p.retryCount == 0 && p.timeoutHeight == Height(0, 0) && p.timeoutTimestamp == 0
    requires AlwaysFails(net) && |events| == 6
    requires Quiet(events) && forall e :: e in events ==> e.ctx == ctx && e.net == net
    requires PossibleRun(State(map[ch := [p]], map[], map[]), events)
    ensures CallsIn(State(map[ch := [p]], map[], map[]), events) == 36
  {
    hide CallsIn, AfterAll, CallsOver, PossibleRun;
    var st := State(map[ch := [p]], map[], map[]);
    NeverCancelled(st, events);
    hide CompleteRun;
    CallsOverRun(st, events);
    assert Rounds(events) == seq(6, _ => Round(ctx, net)) by {
      assert forall i :: 0 <= i < 6 ==> events[i] in events;
    }
    BoundIsReached(p, ctx, net, 6);
    var f := CallsOfQueue(st, Rounds(events));
    assert f(ch) == 36;
    assert st.pending.Keys == {ch};
    SumWithout({ch}, f, ch);
  }

  lemma NeverCancelled(st: State, events: seq<Event>)
    requires PossibleRun(st, events) && forall e :: e in events && e.Process? ==> AlwaysFails(e.net)
    ensures CompleteRun(st, events)
  {
    hide PassOver, AfterAll, PossibleRun;
    forall i, ch | 0 <= i < |events|
      ensures Finishes(AfterAll(st, events[..i]), events[i], ch)
    {
      var e := events[i];
      assert e in events;
      if e.Process? {
        FinishedMeaning(e.net, e.ctx, Queue(AfterAll(st, events[..i]), ch));
      }
    }
  }

  lemma LoneFailure(p: Packet, ctx: Ctx, net: Net)
    requires p.timeoutHeight == Height(0, 0) && p.timeoutTimestamp == 0
    requires AlwaysFails(net)
    ensures var r := PassOver(net, ctx, [p]);
            && r.calls == 6 && r.finished
            && r.kept == if p.retryCount < MAX_RETRIES then [p.(retryCount := p.retryCount + 1)] else []
  {
    NeverRelayed(net, p, 0);
    assert [p][1..] == [];
    JoinEnd(Single(net, ctx, p), true);
  }

  lemma {:induction false} NeverRelayed(net: Net, p: Packet, a: nat)
    requires a <= MAX_RETRIES + 1
    requires AlwaysFails(net)
    ensures Attempts(net, p, a) == Tries(false, MAX_RETRIES + 1 - a)
    decreases MAX_RETRIES + 1 - a
  {
    if a <= MAX_RETRIES {
      NeverRelayed(net, p, a + 1);
    }
  }
}
