/**
 The event queue of src/koe_event.c driven from one thread: a 512-slot ring with free-running
 32-bit counters that drops its oldest event when full, and whose callbacks may post again and
 change the callback table.
 */
module EventRing {
  import opened Bytes
  import opened Listeners

  const RING_SIZE := 512

  const MSG_RECEIVED := 1
  const MEDIA_OFFER := 21

  datatype Event = Event(kind: nat, timestamp: int, suppressed: bool, data: seq<byte>)

  // ---------------------------------------------------------------- what the queue means

  datatype Fate = Dispatched | Dropped

  /** Everything posted, in order; what left the queue, in order, and how; what waits. */
  datatype Log = Log(posted: seq<Event>, fates: seq<Fate>, pending: seq<Event>)

  const EMPTY := Log([], [], [])

  function Posted(l: Log, e: Event): Log
  {
    if |l.pending| >= RING_SIZE
    then Log(l.posted + [e], l.fates + [Dropped], l.pending[1..] + [e])
    else Log(l.posted + [e], l.fates, l.pending + [e])
  }

  function Taken(l: Log): Log
    requires l.pending != []
  {
    Log(l.posted, l.fates + [Dispatched], l.pending[1..])
  }

  /**
   The events still waiting are the last ones posted, never more than 512; the others left in
   the order they were posted; and one was dropped only if 512 newer ones had been posted.
   */
  ghost predicate Consistent(l: Log)
  {
    && |l.pending| <= RING_SIZE
    && |l.posted| == |l.fates| + |l.pending|
    && l.posted[|l.fates|..] == l.pending
    && forall j :: 0 <= j < |l.fates| && l.fates[j] == Dropped ==> |l.posted| > j + RING_SIZE
  }

  lemma TailSnoc(s: seq<Event>, e: Event, n: nat)
    requires n <= |s|
    ensures (s + [e])[n..] == s[n..] + [e]
  {
  }

  lemma TailRest(s: seq<Event>, n: nat)
    requires n < |s|
    ensures s[n + 1..] == s[n..][1..]
  {
  }

  lemma PostConsistent(l: Log, e: Event)
    requires Consistent(l)
    ensures Consistent(Posted(l, e))
  {
    var n := |l.fates|;
    TailSnoc(l.posted, e, n);
    if |l.pending| >= RING_SIZE {
      TailRest(l.posted, n);
      TailSnoc(l.posted, e, n + 1);
    }
  }

  lemma TakeConsistent(l: Log)
    requires Consistent(l) && l.pending != []
    ensures Consistent(Taken(l))
    ensures l.pending[0] == l.posted[|l.fates|]
  {
    TailRest(l.posted, |l.fates|);
  }

  datatype Op = Posts(e: Event) | Takes

  function Stepped(l: Log, op: Op): Log
  {
    match op
    case Posts(e) => Posted(l, e)
    case Takes => if l.pending == [] then l else Taken(l)
  }

  /** Any run of posts and poll iterations, from callbacks or not; an empty ring ends a poll. */
  function Run(l: Log, ops: seq<Op>): Log
    decreases |ops|
  {
    if ops == [] then l else Run(Stepped(l, ops[0]), ops[1..])
  }

  /** The events dispatched so far, in the order they were posted. */
  function Delivered(posted: seq<Event>, fates: seq<Fate>): seq<Event>
    requires |fates| <= |posted|
    decreases |fates|
  {
    if fates == [] then []
    else
      var n := |fates| - 1;
      Delivered(posted, fates[..n]) + (if fates[n] == Dispatched then [posted[n]] else [])
  }

  lemma {:induction false} DeliveredStable(posted: seq<Event>, e: Event, fates: seq<Fate>)
    requires |fates| <= |posted|
    ensures Delivered(posted + [e], fates) == Delivered(posted, fates)
  {
    if fates == [] {
    } else {
      DeliveredStable(posted, e, fates[..|fates| - 1]);
    }
  }

  function CountOf(fates: seq<Fate>, f: Fate): nat
  {
    if fates == [] then 0 else (if fates[|fates| - 1] == f then 1 else 0) + CountOf(fates[..|fates| - 1], f)
  }

  lemma {:induction false} FatesCounted(fates: seq<Fate>)
    ensures CountOf(fates, Dispatched) + CountOf(fates, Dropped) == |fates|
  {
    if fates == [] {
    } else {
      FatesCounted(fates[..|fates| - 1]);
    }
  }

  function EventOf(op: Op): seq<Event>
  {
    match op
    case Posts(e) => [e]
    case Takes => []
  }

  /** The events a run posts, in order. */
  function EventsOf(ops: seq<Op>): seq<Event>
  {
    if ops == [] then [] else EventOf(ops[0]) + EventsOf(ops[1..])
  }

  /** As many are counted as dispatched as were delivered. */
  lemma {:induction false} DeliveredCount(posted: seq<Event>, fates: seq<Fate>)
    requires |fates| <= |posted|
    ensures |Delivered(posted, fates)| == CountOf(fates, Dispatched)
  {
    if fates == [] {
    } else {
      DeliveredCount(posted, fates[..|fates| - 1]);
    }
  }

  lemma Conserves(l: Log)
    requires Consistent(l)
    ensures |l.posted| == CountOf(l.fates, Dispatched) + CountOf(l.fates, Dropped) + |l.pending|
  {
    FatesCounted(l.fates);
  }

  lemma StepConsistent(l: Log, op: Op)
    requires Consistent(l)
    ensures Consistent(Stepped(l, op)) && Stepped(l, op).posted == l.posted + EventOf(op)
  {
    hide Consistent;
    match op
    case Posts(e) => PostConsistent(l, e);
    case Takes =>
      if l.pending != [] {
        TakeConsistent(l);
      }
  }

  /** After every run the log holds the events posted, and posted = dispatched + dropped + pending. */
  lemma {:induction false} RunConserves(l: Log, ops: seq<Op>)
    requires Consistent(l)
    ensures var l' := Run(l, ops);
            && Consistent(l')
            && l'.posted == l.posted + EventsOf(ops)
            && |l'.posted| == CountOf(l'.fates, Dispatched) + CountOf(l'.fates, Dropped) + |l'.pending|
    decreases |ops|
  {
    hide Consistent, CountOf, Stepped, EventOf;
    if ops == [] {
      Conserves(l);
    } else {
      StepConsistent(l, ops[0]);
      RunConserves(Stepped(l, ops[0]), ops[1..]);
      assert l.posted + EventOf(ops[0]) + EventsOf(ops[1..]) == l.posted + (EventOf(ops[0]) + EventsOf(ops[1..]));
    }
  }

  function Posting(es: seq<Event>): (ops: seq<Op>)
    ensures |ops| == |es|
  {
    if es == [] then [] else [Posts(es[0])] + Posting(es[1..])
  }

  function Last512(es: seq<Event>): seq<Event>
  {
    if |es| <= 512 then es else es[|es| - 512..]
  }

  lemma OneOver(es: seq<Event>)
    requires |es| > 512
    ensures Last512(es[1..]) == Last512(es)
  {
  }

  lemma PostedTail(l: Log, e: Event, rest: seq<Event>)
    requires |l.pending| <= 512
    ensures Last512(Posted(l, e).pending + rest) == Last512(l.pending + ([e] + rest))
  {
    hide Last512;
    var all := l.pending + ([e] + rest);
    PostedPending(l, e);
    if |l.pending| < 512 {
      assert l.pending + [e] + rest == all;
    } else {
      assert l.pending[1..] + [e] + rest == all[1..];
      OneOver(all);
    }
  }

  /** Without a poll the last 512 events posted wait, in order, and the others were dropped. */
  lemma {:induction false} LastKept(l: Log, es: seq<Event>)
    requires Consistent(l)
    ensures Run(l, Posting(es)).pending == Last512(l.pending + es)
    decreases |es|
  {
    hide Consistent, Posted;
    ConsistentBound(l);
    if es == [] {
      assert l.pending + es == l.pending;
    } else {
      PostConsistent(l, es[0]);
      assert Posting(es)[1..] == Posting(es[1..]);
      LastKept(Posted(l, es[0]), es[1..]);
      PostedTail(l, es[0], es[1..]);
      assert [es[0]] + es[1..] == es;
    }
  }

  // ---------------------------------------------------------------- dispatch

  /** What a plugin registry makes of an event before the callbacks see it; None is the null registry. */
  type Plugins = Option<Event -> Event>

  function Filtered(plugins: Plugins, e: Event): Event
  {
    if plugins.Some? && (e.kind == MSG_RECEIVED || e.kind == MEDIA_OFFER) then plugins.value(e) else e
  }

  /** What a callback does to the queue and to the callback table while it runs. */
  datatype Effect = Post(e: Event) | Register(l: Listener) | Unregister(fn: nat)

  /** The effects of the callback calls of a poll, call by call; none once it runs out. */
  type Script = seq<seq<Effect>>

  function Next(script: Script): seq<Effect>
  {
    if script == [] then [] else script[0]
  }

  function Tail(script: Script): Script
  {
    if script == [] then [] else script[1..]
  }

  datatype State = State(log: Log, table: seq<Listener>)

  function Applied(s: State, f: Effect): (r: State)
    ensures |s.table| <= MAX_LISTENERS ==> |r.table| <= MAX_LISTENERS
  {
    match f
    case Post(e) => s.(log := Posted(s.log, e))
    case Register(l) => s.(table := Registered(s.table, l))
    case Unregister(fn) => s.(table := Removed(s.table, fn))
  }

  function AppliedAll(s: State, fs: seq<Effect>): (r: State)
    ensures |s.table| <= MAX_LISTENERS ==> |r.table| <= MAX_LISTENERS
    decreases |fs|
  {
    if fs == [] then s else AppliedAll(Applied(s, fs[0]), fs[1..])
  }

  /** A stretch of a poll: the state it leaves, the events taken, the calls made, the script left. */
  datatype Round = Round(state: State, taken: seq<Event>, calls: seq<(Listener, Event)>, rest: Script)

  /** The callback loop from index `i` on; it reads the table as the calls before it left it. */
  function Called(s: State, i: nat, e: Event, script: Script): (r: Round)
    requires |s.table| <= MAX_LISTENERS
    ensures |r.state.table| <= MAX_LISTENERS
    ensures |r.rest| <= |script| && (|r.rest| == |script| ==> r.state == s)
    decreases MAX_LISTENERS - i
  {
    if i >= |s.table| then Round(s, [], [], script)
    else
      var r := Called(AppliedAll(s, Next(script)), i + 1, e, Tail(script));
      r.(calls := [(s.table[i], e)] + r.calls)
  }

  /** One iteration of a poll. */
  function Iterated(s: State, plugins: Plugins, script: Script): (r: Round)
    requires |s.table| <= MAX_LISTENERS && s.log.pending != []
    ensures |r.state.table| <= MAX_LISTENERS
    ensures |r.rest| <= |script| && (|r.rest| == |script| ==> r.state.log == Taken(s.log))
  {
    var e, s' := Filtered(plugins, s.log.pending[0]), s.(log := Taken(s.log));
    var r := if e.suppressed then Round(s', [], [], script) else Called(s', 0, e, script);
    r.(taken := [s.log.pending[0]])
  }

  function Polled(s: State, plugins: Plugins, script: Script): (r: Round)
    requires |s.table| <= MAX_LISTENERS
    ensures |r.state.table| <= MAX_LISTENERS
    decreases |script|, |s.log.pending|
  {
    if s.log.pending == [] then Round(s, [], [], script)
    else
      var r := Iterated(s, plugins, script);
      var r' := Polled(r.state, plugins, r.rest);
      Round(r'.state, r.taken + r'.taken, r.calls + r'.calls, r'.rest)
  }

  /** A plugin that suppresses a received message or an offer keeps it from every callback. */
  lemma Suppression(s: State, filter: Event -> Event, script: Script)
    requires |s.table| <= MAX_LISTENERS && s.log.pending != []
    requires var e := s.log.pending[0]; (e.kind == 1 || e.kind == 21) && filter(e).suppressed
    ensures Iterated(s, Some(filter), script).calls == []
  {
  }

  /** Other events never reach the plugins, and what a plugin makes of a message is what the first callback gets. */
  lemma PluginReach(s: State, filter: Event -> Event, script: Script)
    requires |s.table| <= MAX_LISTENERS && s.log.pending != []
    ensures var e := s.log.pending[0];
            e.kind != 1 && e.kind != 21 ==> Iterated(s, Some(filter), script) == Iterated(s, None, script)
    ensures var e := s.log.pending[0];
            (e.kind == 1 || e.kind == 21) && !filter(e).suppressed && s.table != [] ==>
              var calls := Iterated(s, Some(filter), script).calls;
              calls != [] && calls[0] == (s.table[0], filter(e))
  {
    hide AppliedAll;
  }

  /** A callback registered while an event is dispatched gets that event too. */
  lemma RegisteredMeanwhile(log: Log, a: Listener, b: Listener, e: Event)
    ensures var r := Called(State(log, [a]), 0, e, [[Register(b)]]);
            r.calls == [(a, e), (b, e)] && r.state == State(log, [a, b]) && r.rest == []
  {
    hide Removed;
    var s, s' := State(log, [a]), State(log, [a, b]);
    assert Applied(s, Register(b)) == s';
    assert [Register(b)][1..] == [];
    assert AppliedAll(s, [Register(b)]) == AppliedAll(s', []) == s';
    CalledEnd(s', 2, e, []);
    assert Called(s', 1, e, []) == Round(s', [], [(b, e)], []);
  }

  // ---------------------------------------------------------------- what a poll promises

  /** From `l` to `l'` events were posted, perhaps with drops, and exactly `taken` were dispatched. */
  ghost predicate Progress(l: Log, l': Log, taken: seq<Event>)
  {
    && Consistent(l) && Consistent(l')
    && l.posted <= l'.posted
    && Delivered(l'.posted, l'.fates) == Delivered(l.posted, l.fates) + taken
  }

  lemma NoProgress(l: Log)
    requires Consistent(l)
    ensures Progress(l, l, [])
  {
    hide Delivered;
  }

  lemma ProgressThen(l: Log, l': Log, l'': Log, a: seq<Event>, b: seq<Event>)
    requires Progress(l, l', a) && Progress(l', l'', b)
    ensures Progress(l, l'', a + b) && Consistent(l')
  {
    hide Delivered;
    var d := Delivered(l.posted, l.fates);
    assert d + a + b == d + (a + b);
  }

  lemma ProgressOnly(l: Log, l': Log, l'': Log, a: seq<Event>)
    requires Progress(l, l', a) && Progress(l', l'', [])
    ensures Progress(l, l'', a)
  {
    hide Progress;
    ProgressThen(l, l', l'', a, []);
    assert a + [] == a;
  }

  lemma PostProgress(l: Log, e: Event)
    requires Consistent(l)
    ensures Progress(l, Posted(l, e), [])
  {
    PostConsistent(l, e);
    DeliveredStable(l.posted, e, l.fates);
    assert (l.fates + [Dropped])[..|l.fates|] == l.fates;
  }

  lemma TakeProgress(l: Log)
    requires Consistent(l) && l.pending != []
    ensures Progress(l, Taken(l), [l.pending[0]])
  {
    TakeConsistent(l);
    assert Taken(l).fates[..|l.fates|] == l.fates;
  }

  lemma ProgressConsistent(l: Log, l': Log, taken: seq<Event>)
    requires Progress(l, l', taken)
    ensures Consistent(l')
  {
  }

  lemma {:induction false} EffectsProgress(s: State, fs: seq<Effect>)
    requires Consistent(s.log)
    ensures Progress(s.log, AppliedAll(s, fs).log, [])
    decreases |fs|
  {
    hide Consistent, Progress, Posted;
    NoProgress(s.log);
    if fs == [] {
    } else {
      var s' := Applied(s, fs[0]);
      if fs[0].Post? {
        PostProgress(s.log, fs[0].e);
      }
      ProgressConsistent(s.log, s'.log, []);
      EffectsProgress(s', fs[1..]);
      ProgressOnly(s.log, s'.log, AppliedAll(s', fs[1..]).log, []);
    }
  }

  lemma {:induction false} CallsProgress(s: State, i: nat, e: Event, script: Script)
    requires Consistent(s.log) && |s.table| <= MAX_LISTENERS
    ensures Progress(s.log, Called(s, i, e, script).state.log, [])
    decreases MAX_LISTENERS - i
  {
    hide Consistent, Progress, AppliedAll;
    NoProgress(s.log);
    if i >= |s.table| {
    } else {
      var s' := AppliedAll(s, Next(script));
      EffectsProgress(s, Next(script));
      ProgressConsistent(s.log, s'.log, []);
      CallsProgress(s', i + 1, e, Tail(script));
      ProgressOnly(s.log, s'.log, Called(s', i + 1, e, Tail(script)).state.log, []);
    }
  }

  lemma IterationProgress(s: State, plugins: Plugins, script: Script)
    requires Consistent(s.log) && |s.table| <= MAX_LISTENERS && s.log.pending != []
    ensures var r := Iterated(s, plugins, script); Progress(s.log, r.state.log, r.taken)
  {
    hide Called, Consistent, Progress, Taken;
    var s', e := s.(log := Taken(s.log)), Filtered(plugins, s.log.pending[0]);
    TakeProgress(s.log);
    ProgressConsistent(s.log, s'.log, [s.log.pending[0]]);
    CallsProgress(s', 0, e, script);
    ProgressOnly(s.log, s'.log, Called(s', 0, e, script).state.log, [s.log.pending[0]]);
  }

  lemma {:induction false} PollProgress(s: State, plugins: Plugins, script: Script)
    requires Consistent(s.log) && |s.table| <= MAX_LISTENERS
    ensures var r := Polled(s, plugins, script); Progress(s.log, r.state.log, r.taken) && r.state.log.pending == []
    decreases |script|, |s.log.pending|
  {
    hide Iterated, Consistent, Progress;
    if s.log.pending == [] {
      NoProgress(s.log);
    } else {
      var r := Iterated(s, plugins, script);
      var r' := Polled(r.state, plugins, r.rest);
      IterationProgress(s, plugins, script);
      ProgressConsistent(s.log, r.state.log, r.taken);
      PollProgress(r.state, plugins, r.rest);
      ProgressThen(s.log, r.state.log, r'.state.log, r.taken, r'.taken);
    }
  }

  /**
   A poll empties the ring, whatever its callbacks post, register and unregister: everything posted before or
   during it was dispatched or dropped, and what it dispatched is what was waiting, in posting order.
   */
  lemma PollDrains(s: State, plugins: Plugins, script: Script)
    requires Consistent(s.log) && |s.table| <= MAX_LISTENERS
    ensures var r := Polled(s, plugins, script);
            var l, l' := s.log, r.state.log;
            && Consistent(l') && l'.pending == []
            && |l'.posted| == CountOf(l'.fates, Dispatched) + CountOf(l'.fates, Dropped)
            && l.posted <= l'.posted
            && Delivered(l'.posted, l'.fates) == Delivered(l.posted, l.fates) + r.taken
  {
    hide Polled, Delivered, CountOf;
    PollProgress(s, plugins, script);
    Conserves(Polled(s, plugins, script).state.log);
  }

  /** Every listener from index `i` on, in turn. */
  function CallsFrom(table: seq<Listener>, i: nat, e: Event): seq<(Listener, Event)>
    decreases |table| - i
  {
    if i >= |table| then [] else [(table[i], e)] + CallsFrom(table, i + 1, e)
  }

  /** The calls due for an event: every listener, or none when it is suppressed. */
  function CallsFor(plugins: Plugins, table: seq<Listener>, e: Event): seq<(Listener, Event)>
  {
    var e' := Filtered(plugins, e);
    if e'.suppressed then [] else CallsFrom(table, 0, e')
  }

  function AllCalls(plugins: Plugins, table: seq<Listener>, es: seq<Event>): seq<(Listener, Event)>
  {
    if es == [] then [] else CallsFor(plugins, table, es[0]) + AllCalls(plugins, table, es[1..])
  }

  /** The callbacks only post. */
  predicate TableLeftAlone(script: Script)
  {
    forall i, j :: 0 <= i < |script| && 0 <= j < |script[i]| ==> script[i][j].Post?
  }

  lemma {:induction false} PostsKeepTable(s: State, fs: seq<Effect>)
    requires forall j :: 0 <= j < |fs| ==> fs[j].Post?
    ensures AppliedAll(s, fs).table == s.table
    decreases |fs|
  {
    if fs == [] {
    } else {
      PostsKeepTable(Applied(s, fs[0]), fs[1..]);
    }
  }

  lemma {:induction false} CalledEach(s: State, i: nat, e: Event, script: Script)
    requires |s.table| <= MAX_LISTENERS && TableLeftAlone(script)
    ensures var r := Called(s, i, e, script);
            && r.state.table == s.table && TableLeftAlone(r.rest)
            && r.calls == CallsFrom(s.table, i, e)
    decreases MAX_LISTENERS - i
  {
    hide AppliedAll;
    if i >= |s.table| {
    } else {
      PostsKeepTable(s, Next(script));
      CalledEach(AppliedAll(s, Next(script)), i + 1, e, Tail(script));
    }
  }

  lemma IterationCalls(s: State, plugins: Plugins, script: Script)
    requires |s.table| <= MAX_LISTENERS && s.log.pending != [] && TableLeftAlone(script)
    ensures var r := Iterated(s, plugins, script);
            && r.state.table == s.table && TableLeftAlone(r.rest)
            && r.taken == [s.log.pending[0]] && r.calls == CallsFor(plugins, s.table, s.log.pending[0])
  {
    hide Called, TableLeftAlone;
    var e, s' := Filtered(plugins, s.log.pending[0]), s.(log := Taken(s.log));
    if !e.suppressed {
      CalledEach(s', 0, e, script);
    }
  }

  /** Callbacks that leave the table alone are each called once, in table order, for every event not suppressed. */
  lemma {:induction false} PollCalls(s: State, plugins: Plugins, script: Script)
    requires |s.table| <= MAX_LISTENERS && TableLeftAlone(script)
    ensures var r := Polled(s, plugins, script);
            r.state.table == s.table && r.calls == AllCalls(plugins, s.table, r.taken)
    decreases |script|, |s.log.pending|
  {
    hide Iterated, CallsFor, TableLeftAlone;
    if s.log.pending == [] {
    } else {
      IterationCalls(s, plugins, script);
      var r := Iterated(s, plugins, script);
      PollCalls(r.state, plugins, r.rest);
      var taken := Polled(r.state, plugins, r.rest).taken;
      assert (r.taken + taken)[1..] == taken;
    }
  }

  // ---------------------------------------------------------------- unregistering during dispatch

  /** The calls from index `a` to before `i`. */
  function CallsBetween(table: seq<Listener>, a: nat, i: nat, e: Event): seq<(Listener, Event)>
    requires a <= i <= |table|
    decreases i - a
  {
    if a == i then [] else [(table[a], e)] + CallsBetween(table, a + 1, i, e)
  }

  lemma {:induction false} BetweenMembers(table: seq<Listener>, a: nat, i: nat, e: Event, l: Listener)
    requires a <= i <= |table|
    ensures (l, e) in CallsBetween(table, a, i, e) <==> exists k :: a <= k < i && table[k] == l
    decreases i - a
  {
    if a == i {
    } else {
      BetweenMembers(table, a + 1, i, e, l);
    }
  }

  lemma {:induction false} FromMembers(table: seq<Listener>, i: nat, e: Event, l: Listener)
    ensures (l, e) in CallsFrom(table, i, e) <==> exists k :: i <= k < |table| && table[k] == l
    decreases |table| - i
  {
    if i >= |table| {
    } else {
      FromMembers(table, i + 1, e, l);
    }
  }

  /** `n` calls without effects, then one with `fs`. */
  function Late(n: nat, fs: seq<Effect>): Script
  {
    if n == 0 then [fs] else [[]] + Late(n - 1, fs)
  }

  lemma {:induction false} LateCalls(s: State, a: nat, i: nat, e: Event, fs: seq<Effect>)
    requires a <= i < |s.table| <= MAX_LISTENERS
    ensures Called(s, a, e, Late(i - a, fs)).calls
            == CallsBetween(s.table, a, i, e) + Called(s, i, e, [fs]).calls
    decreases i - a
  {
    hide Called;
    if a == i {
    } else {
      LateCalls(s, a + 1, i, e, fs);
      QuietCall(s, a, e, Late(i - a - 1, fs));
    }
  }

  lemma QuietCall(s: State, a: nat, e: Event, rest: Script)
    requires a < |s.table| <= MAX_LISTENERS
    ensures Called(s, a, e, [[]] + rest).calls == [(s.table[a], e)] + Called(s, a + 1, e, rest).calls
  {
    assert ([[]] + rest)[1..] == rest && AppliedAll(s, []) == s;
  }

  /** The last of the calls that matter: what follows it sees the table it left. */
  lemma CallsAfter(s: State, i: nat, e: Event, fs: seq<Effect>)
    requires i < |s.table| <= MAX_LISTENERS
    ensures Called(s, i, e, [fs]).calls == [(s.table[i], e)] + CallsFrom(AppliedAll(s, fs).table, i + 1, e)
  {
    hide AppliedAll;
    assert [fs][1..] == [];
    CalledEach(AppliedAll(s, fs), i + 1, e, []);
  }

  lemma OneEffect(s: State, f: Effect)
    ensures AppliedAll(s, [f]) == Applied(s, f)
  {
    hide Applied;
    assert [f][1..] == [];
  }

  /**
   Callback `i` unregisters the one at place `j` while an event is dispatched, each function being registered once.
   Every other callback still gets the event, except the last one exactly when it is pulled into a place the loop
   has passed: when `j` is not behind the running callback, which is not itself the last.
   */
  lemma MissedExactly(log: Log, ls: seq<Listener>, i: nat, j: nat, k: nat, e: Event)
    requires i < |ls| <= MAX_LISTENERS && j < |ls| && k < |ls| && k != j
    requires forall x, y :: 0 <= x < y < |ls| ==> ls[x].fn != ls[y].fn
    ensures (ls[k], e) in Called(State(log, ls), 0, e, Late(i, [Unregister(ls[j].fn)])).calls
            <==> !(k == |ls| - 1 && j <= i < |ls| - 1)
  {
    hide Called, AppliedAll, CallsBetween, CallsFrom, Late;
    var s, fs, n := State(log, ls), [Unregister(ls[j].fn)], |ls|;
    LateCalls(s, 0, i, e, fs);
    CallsAfter(s, i, e, fs);
    OneEffect(s, fs[0]);
    RemovedAt(ls, j);
    var ls' := ls[j := ls[n - 1]][..n - 1];
    BetweenMembers(ls, 0, i, e, ls[k]);
    FromMembers(ls', i + 1, e, ls[k]);
    Where(ls, ls', i, j, k);
  }

  lemma RemovedAt(ls: seq<Listener>, j: nat)
    requires j < |ls| && forall x, y :: 0 <= x < y < |ls| ==> ls[x].fn != ls[y].fn
    ensures Removed(ls, ls[j].fn) == ls[j := ls[|ls| - 1]][..|ls| - 1]
  {
    var f := Find(ls, ls[j].fn);
    assert f <= j;
  }

  lemma Where(ls: seq<Listener>, ls': seq<Listener>, i: nat, j: nat, k: nat)
    requires i < |ls| && j < |ls| && k < |ls| && k != j && ls' == ls[j := ls[|ls| - 1]][..|ls| - 1]
    requires forall x, y :: 0 <= x < y < |ls| ==> ls[x].fn != ls[y].fn
    ensures (exists x :: 0 <= x < i && ls[x] == ls[k]) <==> k < i
    ensures ls[i] == ls[k] <==> i == k
    ensures (exists x :: i + 1 <= x < |ls'| && ls'[x] == ls[k])
            <==> (k == |ls| - 1 && j > i) || (i < k < |ls| - 1)
  {
    var n := |ls|;
    forall x | 0 <= x < n ensures ls[x] == ls[k] <==> x == k {
      if x < k {
        assert ls[x].fn != ls[k].fn;
      } else if x > k {
        assert ls[k].fn != ls[x].fn;
      }
    }
    if i < k < n - 1 {
      assert ls'[k] == ls[k];
    }
    if k < i {
      assert ls[k] == ls[k];
    }
    if k == n - 1 && j > i {
      assert ls'[j] == ls[k];
    }
  }

  /** Three callbacks, the first unregisters itself: the third misses the event. */
  lemma MissedExample(log: Log, e: Event)
    ensures var a, b, c := Listener(1, 0), Listener(2, 0), Listener(3, 0);
            Called(State(log, [a, b, c]), 0, e, [[Unregister(1)]]).calls == [(a, e), (b, e)]
  {
    hide Removed, AppliedAll, Called;
    var a, b, c := Listener(1, 0), Listener(2, 0), Listener(3, 0);
    var s := State(log, [a, b, c]);
    OrderLost();
    OneEffect(s, Unregister(1));
    CallsAfter(s, 0, e, [Unregister(1)]);
    assert CallsFrom([c, b], 2, e) == [];
  }

  // ---------------------------------------------------------------- the ring

  function Wrap(n: int): (r: nat)
    ensures r < UINT32
  {
    n % UINT32
  }

  /** `counter & RING_MASK`. */
  function Slot(counter: nat): (i: nat)
    ensures i < RING_SIZE
  {
    counter % RING_SIZE
  }

  /** The slot of the k-th waiting event; the counters wrap at 2^32, a multiple of the ring size. */
  function At(head: nat, k: nat): (i: nat)
    ensures i < RING_SIZE
  {
    Slot(Wrap(head + k))
  }

  lemma ModMod(n: nat)
    ensures n % UINT32 % RING_SIZE == n % RING_SIZE
  {
    var q, r := n / UINT32, n % UINT32;
    var q', r' := r / RING_SIZE, r % RING_SIZE;
    assert n == RING_SIZE * (q * (UINT32 / RING_SIZE) + q') + r';
    ModUnique(n, q * (UINT32 / RING_SIZE) + q', r');
  }

  lemma ModUnique(n: nat, q: nat, r: nat)
    requires n == RING_SIZE * q + r && r < RING_SIZE
    ensures n % RING_SIZE == r
  {
  }

  lemma AtPlain(head: nat, k: nat)
    ensures At(head, k) == (head + k) % RING_SIZE
  {
    ModMod(head + k);
  }

  lemma ModDistinct(a: nat, b: nat)
    requires a < b < a + RING_SIZE
    ensures a % RING_SIZE != b % RING_SIZE
  {
  }

  lemma AtDistinct(head: nat, i: nat, j: nat)
    requires i < j < RING_SIZE
    ensures At(head, i) != At(head, j)
  {
    hide At;
    AtPlain(head, i);
    AtPlain(head, j);
    ModDistinct(head + i, head + j);
  }

  lemma AtNext(head: nat, k: nat)
    ensures At(Wrap(head + 1), k) == At(head, k + 1)
  {
    hide At;
    AtPlain(Wrap(head + 1), k);
    AtPlain(head, k + 1);
  }

  /** The distance of two counters, without the modulus. */
  lemma Distance(head: nat, tail: nat)
    requires head < UINT32 && tail < UINT32
    ensures Wrap(tail - head) == if head <= tail then tail - head else tail - head + UINT32
  {
  }

  lemma Increments(counter: nat)
    requires counter < UINT32
    ensures Wrap(counter + 1) == if counter + 1 == UINT32 then 0 else counter + 1
  {
  }

  lemma Counters(head: nat, tail: nat, n: nat)
    requires head < UINT32 && tail < UINT32 && Wrap(tail - head) == n
    ensures n == 0 <==> head == tail
    ensures n < UINT32 - 1 ==> Wrap(Wrap(tail + 1) - head) == n + 1
    ensures n > 0 ==> Wrap(tail - Wrap(head + 1)) == n - 1
  {
    hide Wrap;
    Distance(head, tail);
    Increments(head);
    Increments(tail);
    Distance(head, Wrap(tail + 1));
    Distance(Wrap(head + 1), tail);
  }

  lemma AtTail(head: nat, tail: nat, n: nat)
    requires head < UINT32 && tail < UINT32 && Wrap(tail - head) == n
    ensures At(head, n) == Slot(tail)
    ensures At(head, 0) == Slot(head)
  {
    hide Wrap, At;
    Distance(head, tail);
    AtPlain(head, n);
    AtPlain(head, 0);
  }

  /** The masked slots hold the waiting events. */
  ghost predicate Holds(slots: seq<Event>, head: nat, pending: seq<Event>)
  {
    |slots| == RING_SIZE && forall k: nat :: k < |pending| ==> slots[At(head, k)] == pending[k]
  }

  lemma HoldsNext(slots: seq<Event>, head: nat, pending: seq<Event>)
    requires Holds(slots, head, pending) && pending != []
    ensures slots[At(head, 0)] == pending[0]
    ensures Holds(slots, Wrap(head + 1), pending[1..])
  {
    hide At, Wrap;
    forall k: nat | k < |pending| - 1 ensures slots[At(Wrap(head + 1), k)] == pending[1..][k] {
      AtNext(head, k);
    }
  }

  lemma HoldsMore(slots: seq<Event>, head: nat, pending: seq<Event>, e: Event)
    requires Holds(slots, head, pending) && |pending| < RING_SIZE
    ensures Holds(slots[At(head, |pending|) := e], head, pending + [e])
  {
    hide At;
    var slots' := slots[At(head, |pending|) := e];
    forall k: nat | k < |pending| ensures slots'[At(head, k)] == pending[k] {
      AtDistinct(head, k, |pending|);
    }
  }

  lemma HoldsSize(slots: seq<Event>, head: nat, pending: seq<Event>)
    requires Holds(slots, head, pending)
    ensures |slots| == RING_SIZE
  {
  }

  lemma PostedPending(l: Log, e: Event)
    ensures Posted(l, e).pending == (if |l.pending| >= RING_SIZE then l.pending[1..] else l.pending) + [e]
  {
  }

  class Ring {
    const events: array<Event>
    var head: nat
    var tail: nat
    ghost var log: Log

    /** The counters are 512 apart at most, modulo 2^32, and the masked slots hold the queue. */
    ghost predicate Valid()
      reads this, events
    {
      && head < UINT32 && tail < UINT32
      && Consistent(log)
      && Wrap(tail - head) == |log.pending|
      && Holds(events[..], head, log.pending)
    }

    constructor ()
      ensures Valid() && log == EMPTY && fresh(events)
    {
      events := new Event[RING_SIZE](_ => Event(0, 0, false, []));
      head, tail, log := 0, 0, EMPTY;
    }

    /** koe_event_post; `now` is the clock. */
    method Post(ev: Event, now: int) returns (rc: int)
      requires Valid()
      modifies this, events
      ensures Valid() && rc == 0
      ensures log == Posted(old(log), ev.(timestamp := now))
    {
      hide Consistent, At, Wrap, Slot, Holds, Posted;
      PostConsistent(log, ev.(timestamp := now));
      PostedPending(log, ev.(timestamp := now));
      HoldsSize(events[..], head, log.pending);
      ghost var kept := log.pending;
      Counters(head, tail, |kept|);
      ConsistentBound(log);
      if Wrap(tail - head) >= RING_SIZE {
        HoldsNext(events[..], head, kept);
        kept := kept[1..];
        head := Increment(head);
      }
      AtTail(head, tail, |kept|);
      Counters(head, tail, |kept|);
      HoldsMore(events[..], head, kept, ev.(timestamp := now));
      ghost var slots := events[..];
      events[Slot(tail)] := ev;
      events[Slot(tail)] := events[Slot(tail)].(timestamp := now);
      assert events[..] == slots[Slot(tail) := ev.(timestamp := now)];
      tail := Increment(tail);
      log := Posted(log, ev.(timestamp := now));
      rc := 0;
    }

    static method Increment(counter: nat) returns (next: nat)
      ensures next == Wrap(counter + 1) < UINT32
    {
      next := Wrap(counter + 1);
    }

    /** One poll iteration up to the head store. */
    method Take() returns (ev: Event)
      requires Valid() && head != tail
      modifies this
      ensures Valid()
      ensures old(log).pending != [] && ev == old(log).pending[0]
      ensures log == Taken(old(log))
    {
      hide Consistent, At, Wrap, Slot;
      AtTail(head, tail, |log.pending|);
      Counters(head, tail, |log.pending|);
      TakeConsistent(log);
      HoldsNext(events[..], head, log.pending);
      ev := events[Slot(head)];
      head := Increment(head);
      log := Taken(log);
    }

    ghost function StateWith(t: Table): State
      reads this, t, t.entries
      requires t.Valid()
    {
      State(log, t.Value())
    }

    /** What one callback call does. */
    method Apply(t: Table, fs: seq<Effect>)
      requires Valid() && t.Valid()
      modifies this, events, t, t.entries
      ensures Valid() && t.Valid()
      ensures StateWith(t) == AppliedAll(old(StateWith(t)), fs)
    {
      hide Consistent, Holds, Posted, Wrap;
      ghost var s := StateWith(t);
      var i := 0;
      while i < |fs|
        invariant 0 <= i <= |fs|
        invariant Valid() && t.Valid()
        invariant AppliedAll(StateWith(t), fs[i..]) == AppliedAll(s, fs)
      {
        assert fs[i..][0] == fs[i] && fs[i..][1..] == fs[i + 1..];
        match fs[i] {
          case Post(e) => {
            var _ := Post(e, e.timestamp);
          }
          case Register(l) => {
            var _ := t.Register(l);
          }
          case Unregister(fn) => {
            var _ := t.Unregister(fn);
          }
        }
        i := i + 1;
      }
    }

    /** One whole iteration: take an event, filter it, call the listeners of the live table. */
    method Iterate(plugins: Plugins, t: Table, script: Script)
      returns (ghost ev: Event, calls: seq<(Listener, Event)>, rest: Script)
      requires Valid() && t.Valid() && head != tail
      modifies this, events, t, t.entries
      ensures Valid() && t.Valid() && old(log).pending != []
      ensures Round(StateWith(t), [ev], calls, rest) == Iterated(old(StateWith(t)), plugins, script)
    {
      hide Consistent, Holds, Wrap, AppliedAll, Called;
      var taken := Take();
      ev := taken;
      calls, rest := [], script;
      var ev' := Filtered(plugins, taken);
      if !ev'.suppressed {
        ghost var s := StateWith(t);
        ghost var whole := Called(s, 0, ev', script);
        var i := 0;
        assert [] + whole.calls == whole.calls;
        while i < t.count
          invariant 0 <= i <= MAX_LISTENERS && Valid() && t.Valid()
          invariant Joined(calls, Called(StateWith(t), i, ev', rest)) == whole
          decreases MAX_LISTENERS - i
        {
          CalledStep(StateWith(t), i, ev', rest, calls);
          calls := calls + [(t.entries[i], ev')];
          Apply(t, if rest == [] then [] else rest[0]);
          rest := if rest == [] then [] else rest[1..];
          i := i + 1;
        }
        CalledEnd(StateWith(t), i, ev', rest);
      }
    }

    /**
     koe_event_poll: `script` is what the callbacks do, call by call.  Returns the number of events
     dispatched and the callback calls made.
     */
    method Poll(plugins: Plugins, t: Table, script: Script)
      returns (dispatched: nat, calls: seq<(Listener, Event)>, rest: Script, ghost taken: seq<Event>)
      requires Valid() && t.Valid()
      modifies this, events, t, t.entries
      ensures Valid() && t.Valid() && head == tail
      ensures Round(StateWith(t), taken, calls, rest) == Polled(old(StateWith(t)), plugins, script)
      ensures dispatched == |taken|
    {
      hide Consistent, Holds, Polled, Wrap, Iterated;
      ghost var whole := Polled(StateWith(t), plugins, script);
      dispatched, calls, rest, taken := 0, [], script, [];
      NothingBefore(whole);
      while head != tail
        invariant Valid() && t.Valid()
        invariant After(taken, calls, Polled(StateWith(t), plugins, rest)) == whole
        invariant dispatched == |taken|
        decreases |rest|, |log.pending|
      {
        Counters(head, tail, |log.pending|);
        PolledStep(StateWith(t), plugins, rest, taken, calls);
        ghost var ev;
        var made;
        ev, made, rest := Iterate(plugins, t, rest);
        calls, taken := calls + made, taken + [ev];
        dispatched := dispatched + 1;
      }
      Counters(head, tail, |log.pending|);
      PolledEnd(StateWith(t), plugins, rest);
    }
  }

  function Joined(calls: seq<(Listener, Event)>, r: Round): Round
  {
    r.(calls := calls + r.calls)
  }

  function After(taken: seq<Event>, calls: seq<(Listener, Event)>, r: Round): Round
  {
    r.(taken := taken + r.taken, calls := calls + r.calls)
  }

  lemma CalledStep(s: State, i: nat, e: Event, script: Script, calls: seq<(Listener, Event)>)
    requires |s.table| <= MAX_LISTENERS && i < |s.table|
    ensures Joined(calls, Called(s, i, e, script))
            == Joined(calls + [(s.table[i], e)], Called(AppliedAll(s, Next(script)), i + 1, e, Tail(script)))
  {
    hide AppliedAll;
    var r := Called(AppliedAll(s, Next(script)), i + 1, e, Tail(script));
    assert calls + ([(s.table[i], e)] + r.calls) == calls + [(s.table[i], e)] + r.calls;
  }

  lemma CalledEnd(s: State, i: nat, e: Event, script: Script)
    requires |s.table| <= i && |s.table| <= MAX_LISTENERS
    ensures Called(s, i, e, script) == Round(s, [], [], script)
  {
  }

  lemma NothingBefore(r: Round)
    ensures After([], [], r) == r
  {
    assert [] + r.taken == r.taken && [] + r.calls == r.calls;
  }

  lemma PolledStep(s: State, plugins: Plugins, script: Script, taken: seq<Event>, calls: seq<(Listener, Event)>)
    requires |s.table| <= MAX_LISTENERS && s.log.pending != []
    ensures var r := Iterated(s, plugins, script);
            After(taken, calls, Polled(s, plugins, script))
            == After(taken + r.taken, calls + r.calls, Polled(r.state, plugins, r.rest))
  {
    hide Iterated;
    var r := Iterated(s, plugins, script);
    AfterBoth(taken, calls, r.taken, r.calls, Polled(r.state, plugins, r.rest));
  }

  lemma AfterBoth(t: seq<Event>, c: seq<(Listener, Event)>, t': seq<Event>, c': seq<(Listener, Event)>, r: Round)
    ensures After(t, c, After(t', c', r)) == After(t + t', c + c', r)
  {
    assert t + (t' + r.taken) == t + t' + r.taken;
    assert c + (c' + r.calls) == c + c' + r.calls;
  }

  lemma PolledEnd(s: State, plugins: Plugins, script: Script)
    requires |s.table| <= MAX_LISTENERS && s.log.pending == []
    ensures Polled(s, plugins, script) == Round(s, [], [], script)
  {
  }

  lemma ConsistentBound(l: Log)
    requires Consistent(l)
    ensures |l.pending| <= RING_SIZE
  {
  }
}
