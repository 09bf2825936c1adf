/**
 The same ring shared by two threads, at the grain of single loads, stores and word copies
 (src/koe_event.c:86-97 and 117-141).  Events are copied word by word in any order, so a torn
 copy is a behaviour of the model unless it is proved away.  Runs are those in which no post
 finds the ring full; a full post also writes `head` and belongs to module EventRing.
 */
module EventInterleaving {
  import opened Bytes
  import opened EventRing

  type Words = seq<int>

  datatype Producer =
    | Idle
    | LoadedTail(t: nat, ev: Words)
    | Writing(t: nat, ev: Words, done: set<nat>)
    | Stamped(t: nat, ev: Words)

  datatype Consumer =
    | Resting
    | LoadedHead(h: nat)
    | LoadedBoth(h: nat, t: nat)
    | Copying(h: nat, got: map<nat, int>)
    | Dispatching(ev: Words)

  /**
   `width` words make an event and `stamp` is the one holding the timestamp.  `posted` and
   `delivered` record what the tail update published and what the callbacks were given.
   */
  datatype State = State(
    width: nat, stamp: nat,
    slots: seq<Words>, head: nat, tail: nat,
    producer: Producer, consumer: Consumer,
    posted: seq<Words>, delivered: seq<Words>)

  datatype Action =
    | LoadTail(ev: Words) | CheckRoom | WriteWord(k: nat) | Stamp(now: int) | Publish
    | PollHead | PollTail | Compare | ReadWord(k: nat) | StoreHead | Dispatch

  predicate Initial(s: State)
  {
    && s.stamp < s.width && |s.slots| == RING_SIZE && (forall x :: x in s.slots ==> |x| == s.width)
    && s.head == 0 && s.tail == 0 && s.producer == Idle && s.consumer == Resting
    && s.posted == [] && s.delivered == []
  }

  predicate Enabled(s: State, a: Action)
  {
    match a
    case LoadTail(ev) => s.producer == Idle && |ev| == s.width
    case CheckRoom => s.producer.LoadedTail? && Wrap(s.producer.t - s.head) < RING_SIZE
    case WriteWord(k) => s.producer.Writing? && k < s.width && k !in s.producer.done
    case Stamp(now) => s.producer.Writing? && forall k: nat :: k < s.width ==> k in s.producer.done
    case Publish => s.producer.Stamped?
    case PollHead => s.consumer == Resting
    case PollTail => s.consumer.LoadedHead?
    case Compare => s.consumer.LoadedBoth?
    case ReadWord(k) => s.consumer.Copying? && k < s.width && k !in s.consumer.got
    case StoreHead => s.consumer.Copying? && forall k: nat :: k < s.width ==> k in s.consumer.got
    case Dispatch => s.consumer.Dispatching?
  }

  /** Shapes of a state: what the step function needs to be defined. */
  predicate Shaped(s: State)
  {
    && s.stamp < s.width && |s.slots| == RING_SIZE && (forall i :: 0 <= i < RING_SIZE ==> |s.slots[i]| == s.width)
    && (!s.producer.Idle? ==> |s.producer.ev| == s.width)
  }

  function Assembled(got: map<nat, int>, width: nat): Words
    requires forall k: nat :: k < width ==> k in got
  {
    seq(width, k requires 0 <= k < width => got[k])
  }

  function Next(s: State, a: Action): State
    requires Shaped(s) && Enabled(s, a)
  {
    match a
    case LoadTail(ev) => s.(producer := LoadedTail(s.tail, ev))
    case CheckRoom => s.(producer := Writing(s.producer.t, s.producer.ev, {}))
    case WriteWord(k) =>
      var i := Slot(s.producer.t);
      s.(slots := s.slots[i := s.slots[i][k := s.producer.ev[k]]],
         producer := s.producer.(done := s.producer.done + {k}))
    case Stamp(now) =>
      var i := Slot(s.producer.t);
      s.(slots := s.slots[i := s.slots[i][s.stamp := now]],
         producer := Stamped(s.producer.t, s.producer.ev[s.stamp := now]))
    case Publish => s.(tail := Wrap(s.tail + 1), posted := s.posted + [s.producer.ev], producer := Idle)
    case PollHead => s.(consumer := LoadedHead(s.head))
    case PollTail => s.(consumer := LoadedBoth(s.consumer.h, s.tail))
    case Compare => s.(consumer := if s.consumer.h == s.consumer.t then Resting else Copying(s.consumer.h, map[]))
    case ReadWord(k) =>
      s.(consumer := s.consumer.(got := s.consumer.got[k := s.slots[Slot(s.consumer.h)][k]]))
    case StoreHead =>
      s.(head := Wrap(s.consumer.h + 1), consumer := Dispatching(Assembled(s.consumer.got, s.width)))
    case Dispatch => s.(delivered := s.delivered + [s.consumer.ev], consumer := Resting)
  }

  // ---------------------------------------------------------------- the invariant

  /** How many events the consumer has taken out, in unbounded numbers. */
  function H(s: State): nat
  {
    |s.delivered| + if s.consumer.Dispatching? then 1 else 0
  }

  /** How many events the producer has published. */
  function T(s: State): nat
  {
    |s.posted|
  }

  ghost predicate CountersOk(s: State)
  {
    && s.head == Wrap(H(s)) && s.tail == Wrap(T(s))
    && H(s) <= T(s) <= H(s) + RING_SIZE
  }

  ghost predicate SlotsOk(s: State)
    requires Shaped(s)
  {
    && (forall i: nat :: i < |s.posted| ==> |s.posted[i]| == s.width)
    && (forall i: nat :: H(s) <= i < T(s) ==> s.slots[Slot(i)] == s.posted[i])
    && s.delivered <= s.posted
  }

  ghost predicate ProducerOk(s: State)
    requires Shaped(s)
  {
    match s.producer
    case Idle => true
    case LoadedTail(t, _) => t == s.tail
    case Writing(t, ev, done) =>
      && t == s.tail && T(s) < H(s) + RING_SIZE
      && (forall k: nat :: k in done ==> k < s.width && s.slots[Slot(T(s))][k] == ev[k])
    case Stamped(t, ev) =>
      t == s.tail && T(s) < H(s) + RING_SIZE && s.slots[Slot(T(s))] == ev
  }

  ghost predicate ConsumerOk(s: State)
    requires Shaped(s) && SlotsOk(s)
  {
    match s.consumer
    case Resting => true
    case LoadedHead(h) => h == s.head
    case LoadedBoth(h, t) => h == s.head && t < UINT32 && Wrap(t - h) <= T(s) - H(s)
    case Copying(h, got) =>
      && h == s.head && H(s) < T(s)
      && (forall k: nat :: k in got ==> k < s.width && got[k] == s.posted[H(s)][k])
    case Dispatching(ev) => 0 < H(s) <= T(s) && ev == s.posted[H(s) - 1]
  }

  ghost predicate Inv(s: State)
  {
    Shaped(s) && CountersOk(s) && SlotsOk(s) && ProducerOk(s) && ConsumerOk(s)
  }

  lemma SlotOfWrapped(n: nat)
    ensures Slot(Wrap(n)) == Slot(n)
  {
  }

  lemma SlotsApart(a: nat, b: nat)
    requires a < b < a + RING_SIZE
    ensures Slot(a) != Slot(b)
  {
    ModDistinct(a, b);
  }

  lemma WrapGap(a: nat, b: nat)
    requires a <= b < a + UINT32
    ensures Wrap(Wrap(b) - Wrap(a)) == b - a
  {
  }

  lemma WrapNext(n: nat)
    ensures Wrap(Wrap(n) + 1) == Wrap(n + 1)
  {
  }

  // ---------------------------------------------------------------- every step keeps it

  lemma ProducerStep(s: State, a: Action)
    requires Inv(s) && Enabled(s, a)
    requires a.LoadTail? || a.CheckRoom? || a.WriteWord? || a.Stamp? || a.Publish?
    ensures Inv(Next(s, a))
  {
    hide Wrap, Slot;
    var s' := Next(s, a);
    SlotOfWrapped(T(s));
    match a
    case LoadTail(_) =>
    case CheckRoom =>
      WrapGap(H(s), T(s));
    case WriteWord(k) =>
      FreeSlot(s);
    case Stamp(now) =>
      FreeSlot(s);
      assert s.slots[Slot(T(s))] == s.producer.ev;
    case Publish =>
      WrapNext(T(s));
      PublishKeepsConsumer(s);
  }

  /** The slot being written is not one the consumer may read. */
  lemma FreeSlot(s: State)
    requires Inv(s) && T(s) < H(s) + RING_SIZE
    ensures forall i: nat :: H(s) <= i < T(s) ==> Slot(i) != Slot(T(s))
  {
    forall i: nat | H(s) <= i < T(s) ensures Slot(i) != Slot(T(s)) {
      SlotsApart(i, T(s));
    }
  }

  lemma PublishKeepsConsumer(s: State)
    requires Inv(s) && s.producer.Stamped?
    ensures var s' := Next(s, Publish); Shaped(s') && SlotsOk(s') && ConsumerOk(s')
  {
    hide Wrap, Slot;
  }

  lemma ConsumerStep(s: State, a: Action)
    requires Inv(s) && Enabled(s, a)
    requires !(a.LoadTail? || a.CheckRoom? || a.WriteWord? || a.Stamp? || a.Publish?)
    ensures Inv(Next(s, a))
  {
    hide Wrap, Slot;
    var s' := Next(s, a);
    SlotOfWrapped(H(s));
    match a
    case PollHead =>
    case PollTail =>
      WrapGap(H(s), T(s));
    case Compare =>
      if s.consumer.h != s.consumer.t {
        LoadedApart(s);
      }
    case ReadWord(k) =>
    case StoreHead =>
      WrapNext(H(s));
      assert Assembled(s.consumer.got, s.width) == s.posted[H(s)];
    case Dispatch =>
      assert s'.delivered == s.posted[..H(s)];
  }

  lemma LoadedApart(s: State)
    requires Inv(s) && s.consumer.LoadedBoth? && s.consumer.h != s.consumer.t
    ensures H(s) < T(s)
  {
    Distance(s.consumer.h, s.consumer.t);
  }

  // ---------------------------------------------------------------- runs

  /** A run: states linked by enabled actions, from an empty ring. */
  ghost predicate IsRun(states: seq<State>, actions: seq<Action>)
  {
    && |states| == |actions| + 1 && Initial(states[0])
    && forall i :: 0 <= i < |actions| ==>
         Shaped(states[i]) && Enabled(states[i], actions[i]) && states[i + 1] == Next(states[i], actions[i])
  }

  lemma {:induction false} Reachable(states: seq<State>, actions: seq<Action>, i: nat)
    requires IsRun(states, actions) && i < |states|
    ensures Inv(states[i])
  {
    if i == 0 {
      assert Wrap(0) == 0;
    } else {
      Reachable(states, actions, i - 1);
      var s, a := states[i - 1], actions[i - 1];
      if a.LoadTail? || a.CheckRoom? || a.WriteWord? || a.Stamp? || a.Publish? {
        ProducerStep(s, a);
      } else {
        ConsumerStep(s, a);
      }
    }
  }

  // ---------------------------------------------------------------- what the posts were given

  /** The events posted and the one being posted, read off the actions alone. */
  datatype Account = Account(posted: seq<Words>, current: Option<Words>)

  function Counted(account: Account, a: Action, stamp: nat): Account
  {
    match a
    case LoadTail(ev) => account.(current := Some(ev))
    case Stamp(now) =>
      if account.current.Some? && stamp < |account.current.value|
      then account.(current := Some(account.current.value[stamp := now])) else account
    case Publish =>
      if account.current.Some? then Account(account.posted + [account.current.value], None) else account
    case _ => account
  }

  /** Each event a post was given, with the time of its stamp, in the order of the tail updates. */
  function AccountOf(actions: seq<Action>, stamp: nat): Account
  {
    if actions == [] then Account([], None)
    else Counted(AccountOf(actions[..|actions| - 1], stamp), actions[|actions| - 1], stamp)
  }

  /** The state agrees with the account of the actions that led to it. */
  ghost predicate Agrees(s: State, account: Account)
  {
    && s.posted == account.posted
    && (!s.producer.Idle? ==> account.current == Some(s.producer.ev) && |s.producer.ev| == s.width)
  }

  lemma AgreesStep(s: State, a: Action, account: Account)
    requires Shaped(s) && Enabled(s, a) && Agrees(s, account)
    ensures Agrees(Next(s, a), Counted(account, a, s.stamp)) && Next(s, a).stamp == s.stamp
  {
    hide Slot, Wrap, Assembled;
  }

  /** In every state of every run the events posted are exactly those the posts were given, with their times. */
  lemma {:induction false} PostedAreGiven(states: seq<State>, actions: seq<Action>, i: nat)
    requires IsRun(states, actions) && i < |states|
    ensures states[i].stamp == states[0].stamp
    ensures Agrees(states[i], AccountOf(actions[..i], states[0].stamp))
    ensures states[i].posted == AccountOf(actions[..i], states[0].stamp).posted
  {
    if i == 0 {
    } else {
      hide Agrees, Counted, Next, Enabled, Shaped;
      PostedAreGiven(states, actions, i - 1);
      assert actions[..i][..i - 1] == actions[..i - 1] && actions[..i][i - 1] == actions[i - 1];
      AgreesStep(states[i - 1], actions[i - 1], AccountOf(actions[..i - 1], states[0].stamp));
      AgreesPosted(states[i], AccountOf(actions[..i], states[0].stamp));
    }
  }

  lemma AgreesPosted(s: State, account: Account)
    requires Agrees(s, account)
    ensures s.posted == account.posted
  {
  }

  /** Some words of an event are in the ring and others are not. */
  predicate MidWrite(s: State)
  {
    s.producer.Writing? || s.producer.Stamped?
  }

  /**
   In every state of every run: the delivered events are the first of those the posts were given, with
   their times, in order and each once; and while one thread writes a slot the other is never copying it.
   */
  lemma DeliversPrefix(states: seq<State>, actions: seq<Action>, i: nat)
    requires IsRun(states, actions) && i < |states|
    ensures states[i].delivered <= states[i].posted == AccountOf(actions[..i], states[0].stamp).posted
    ensures MidWrite(states[i]) && states[i].consumer.Copying? ==>
              Slot(states[i].producer.t) != Slot(states[i].consumer.h)
    ensures states[i].consumer.Dispatching? ==>
              |states[i].delivered| < |states[i].posted|
              && states[i].consumer.ev == states[i].posted[|states[i].delivered|]
  {
    hide AccountOf;
    var s := states[i];
    Reachable(states, actions, i);
    PostedAreGiven(states, actions, i);
    if MidWrite(s) && s.consumer.Copying? {
      SlotOfWrapped(T(s));
      SlotOfWrapped(H(s));
      SlotsApart(H(s), T(s));
    }
  }

  /** A post finds room exactly while fewer than 512 events wait. */
  lemma RoomExactly(s: State)
    requires Inv(s) && s.producer.LoadedTail?
    ensures Enabled(s, CheckRoom) <==> |s.posted| - H(s) < 512
  {
    hide Wrap, SlotsOk, ConsumerOk;
    WrapGap(H(s), T(s));
  }

  lemma RunMore(states: seq<State>, actions: seq<Action>, a: Action)
    requires IsRun(states, actions)
    requires var s := states[|actions|]; Shaped(s) && Enabled(s, a)
    ensures IsRun(states + [Next(states[|actions|], a)], actions + [a])
  {
    hide Next, Enabled, Shaped, Initial;
  }

  /** One step of the run below, with the state it leads to. */
  lemma Leads(states: seq<State>, actions: seq<Action>, s: State, a: Action, s': State)
    returns (states': seq<State>, actions': seq<Action>)
    requires IsRun(states, actions) && states[|actions|] == s && Shaped(s) && Enabled(s, a) && Next(s, a) == s'
    ensures IsRun(states', actions') && states' == states + [s'] && actions' == actions + [a]
    ensures |actions'| == |actions| + 1 && states'[|actions'|] == s' && states'[0] == states[0]
  {
    hide Next, Enabled, Shaped, IsRun;
    RunShape(states, actions);
    RunMore(states, actions, a);
    states', actions' := states + [s'], actions + [a];
  }

  lemma RunShape(states: seq<State>, actions: seq<Action>)
    requires IsRun(states, actions)
    ensures |states| == |actions| + 1
  {
  }

  const ZEROED: seq<Words> := seq(RING_SIZE, _ => [0, 0])

  /** The state after the post below. */
  const POSTED := State.State(2, 1, ZEROED[0 := [7, 99]], 0, 1, Idle, Resting, [[7, 99]], [])

  /** Half way through the write. */
  const WRITING := State.State(2, 1, ZEROED[0 := [7, 0]], 0, 0, Writing(0, [7, 8], {0}), Resting, [], [])

  lemma WriteRun() returns (states: seq<State>, actions: seq<Action>)
    ensures IsRun(states, actions) && states[|actions|] == WRITING
  {
    hide IsRun, Wrap, Slot;
    var s0 := State.State(2, 1, ZEROED, 0, 0, Idle, Resting, [], []);
    states, actions := [s0], [];
    Starts(s0);
    SlotZero();
    WordsWritten();
    var s1 := s0.(producer := LoadedTail(0, [7, 8]));
    var s2 := s1.(producer := Writing(0, [7, 8], {}));
    assert s2.producer.done + {0} == {0};
    states, actions := Leads(states, actions, s0, LoadTail([7, 8]), s1);
    states, actions := Leads(states, actions, s1, CheckRoom, s2);
    states, actions := Leads(states, actions, s2, WriteWord(0), WRITING);
  }

  lemma PostRun() returns (states: seq<State>, actions: seq<Action>)
    ensures IsRun(states, actions) && states[|actions|] == POSTED
  {
    hide IsRun, Wrap, Slot;
    states, actions := WriteRun();
    SlotZero();
    WordsWritten();
    var s4 := WRITING.(slots := ZEROED[0 := [7, 8]], producer := Writing(0, [7, 8], {0, 1}));
    var s5 := s4.(slots := ZEROED[0 := [7, 99]], producer := Stamped(0, [7, 99]));
    assert WRITING.producer.done + {1} == {0, 1};
    states, actions := Leads(states, actions, WRITING, WriteWord(1), s4);
    states, actions := Leads(states, actions, s4, Stamp(99), s5);
    states, actions := Leads(states, actions, s5, Publish, POSTED);
  }

  lemma WordsWritten()
    ensures ZEROED[0 := ZEROED[0][0 := 7]] == ZEROED[0 := [7, 0]]
    ensures var one := ZEROED[0 := [7, 0]]; one[0 := one[0][1 := 8]] == ZEROED[0 := [7, 8]]
    ensures var two := ZEROED[0 := [7, 8]]; two[0 := two[0][1 := 99]] == ZEROED[0 := [7, 99]]
    ensures [7, 8][1 := 99] == [7, 99]
  {
    assert [0, 0][0 := 7] == [7, 0] && [7, 0][1 := 8] == [7, 8] && [7, 8][1 := 99] == [7, 99];
  }

  /** Half way through the copy. */
  const COPYING := POSTED.(consumer := Copying(0, map[0 := 7]))

  lemma CopyRun() returns (states: seq<State>, actions: seq<Action>)
    ensures IsRun(states, actions) && states[|actions|] == COPYING
  {
    hide IsRun, Wrap, Slot;
    states, actions := PostRun();
    SlotZero();
    var s7 := POSTED.(consumer := LoadedHead(0));
    var s8 := s7.(consumer := LoadedBoth(0, 1));
    var s9 := s8.(consumer := Copying(0, map[]));
    states, actions := Leads(states, actions, POSTED, PollHead, s7);
    states, actions := Leads(states, actions, s7, PollTail, s8);
    states, actions := Leads(states, actions, s8, Compare, s9);
    states, actions := Leads(states, actions, s9, ReadWord(0), COPYING);
  }

  /** A run: the two words 7 and 8 are posted at time 99 into a zeroed ring and polled; the callbacks get 7 and 99. */
  lemma PostAndPoll() returns (states: seq<State>, actions: seq<Action>)
    ensures IsRun(states, actions) && states[|actions|].delivered == [[7, 99]]
  {
    hide IsRun, Wrap, Slot;
    states, actions := CopyRun();
    SlotZero();
    var s11 := COPYING.(consumer := Copying(0, map[0 := 7, 1 := 99]));
    var s12 := s11.(head := 1, consumer := Dispatching([7, 99]));
    states, actions := Leads(states, actions, COPYING, ReadWord(1), s11);
    assert Assembled(map[0 := 7, 1 := 99], 2) == [7, 99];
    states, actions := Leads(states, actions, s11, StoreHead, s12);
    states, actions := Leads(states, actions, s12, Dispatch, s12.(consumer := Resting, delivered := [[7, 99]]));
  }

  lemma Starts(s: State)
    requires Initial(s)
    ensures IsRun([s], [])
  {
  }

  lemma SlotZero()
    ensures Slot(0) == 0 && Wrap(0) == 0 && Wrap(1) == 1
  {
  }

  /** When a poll reads equal counters, everything published by then has been delivered. */
  lemma PollDrains(states: seq<State>, actions: seq<Action>, i: nat)
    requires IsRun(states, actions) && i < |actions| && actions[i] == PollTail
    requires states[i + 1].consumer.h == states[i + 1].consumer.t
    ensures states[i + 1].delivered == states[i + 1].posted == AccountOf(actions[..i + 1], states[0].stamp).posted
  {
    hide AccountOf;
    PostedAreGiven(states, actions, i + 1);
    Reachable(states, actions, i);
    Reachable(states, actions, i + 1);
    var s := states[i];
    WrapGap(H(s), T(s));
  }
}
