/** The callback table of src/koe_event.c. */
module Listeners {

  const MAX_LISTENERS := 32

  /** A function pointer and its context pointer. */
  datatype Listener = Listener(fn: nat, ctx: nat)

  /** The first entry with this function, or the length when there is none. */
  function Find(ls: seq<Listener>, fn: nat): (i: nat)
    ensures i <= |ls|
    ensures i < |ls| ==> ls[i].fn == fn
    ensures forall k :: 0 <= k < i ==> ls[k].fn != fn
  {
    if ls == [] then 0 else if ls[0].fn == fn then 0 else 1 + Find(ls[1..], fn)
  }

  /** The table after a registration, which fails when it is full. */
  function Registered(ls: seq<Listener>, l: Listener): seq<Listener>
  {
    if |ls| < MAX_LISTENERS then ls + [l] else ls
  }

  /** The table after removal: the last entry moves into the hole. */
  function Removed(ls: seq<Listener>, fn: nat): seq<Listener>
  {
    var i := Find(ls, fn);
    if i == |ls| then ls else ls[i := ls[|ls| - 1]][..|ls| - 1]
  }

  /** The table with the entry taken out and the registration order of the others kept. */
  function InOrder(ls: seq<Listener>, fn: nat): seq<Listener>
  {
    var i := Find(ls, fn);
    if i == |ls| then ls else ls[..i] + ls[i + 1..]
  }

  /**
   The header promises calls in registration order.  Unregistering keeps that order exactly when
   the entries registered after the removed one are all the same.
   */
  lemma OrderKept(ls: seq<Listener>, fn: nat)
    ensures Removed(ls, fn) == InOrder(ls, fn)
            <==> forall k :: Find(ls, fn) < k < |ls| ==> ls[k] == ls[|ls| - 1]
  {
    var i, n := Find(ls, fn), |ls|;
    if i < n {
      var r, o := Removed(ls, fn), InOrder(ls, fn);
      if r == o {
        forall k | i < k < n ensures ls[k] == ls[n - 1] {
          SameAfter(ls, i, k, r, o);
        }
      }
      if forall k :: i < k < n ==> ls[k] == ls[n - 1] {
        KeptWhenSame(ls, i);
      }
    }
  }

  lemma KeptWhenSame(ls: seq<Listener>, i: nat)
    requires i < |ls| && forall k :: i < k < |ls| ==> ls[k] == ls[|ls| - 1]
    ensures ls[i := ls[|ls| - 1]][..|ls| - 1] == ls[..i] + ls[i + 1..]
  {
  }

  lemma {:induction false} SameAfter(ls: seq<Listener>, i: nat, k: nat, r: seq<Listener>, o: seq<Listener>)
    requires i < k < |ls| && r == o
    requires r == ls[i := ls[|ls| - 1]][..|ls| - 1] && o == ls[..i] + ls[i + 1..]
    ensures ls[k] == ls[|ls| - 1]
  {
    assert o[k - 1] == ls[k];
    if k - 1 > i {
      SameAfter(ls, i, k - 1, r, o);
      assert r[k - 1] == ls[k - 1];
    } else {
      assert r[i] == ls[|ls| - 1];
    }
  }

  /** A table of 32 takes no more; a smaller one takes the new callback last. */
  lemma TableFills(ls: seq<Listener>, l: Listener)
    ensures |ls| >= 32 ==> Registered(ls, l) == ls
    ensures |ls| < 32 ==> |Registered(ls, l)| == |ls| + 1 && ls <= Registered(ls, l) && Registered(ls, l)[|ls|] == l
  {
  }

  /** Three distinct callbacks, the first removed: the third now runs before the second. */
  lemma OrderLost()
    ensures var ls := [Listener(1, 0), Listener(2, 0), Listener(3, 0)];
            && Removed(ls, 1) == [Listener(3, 0), Listener(2, 0)]
            && InOrder(ls, 1) == [Listener(2, 0), Listener(3, 0)]
  {
    var ls := [Listener(1, 0), Listener(2, 0), Listener(3, 0)];
    assert Find(ls, 1) == 0;
  }

  /** The others survive, whatever their order. */
  lemma OthersSurvive(ls: seq<Listener>, fn: nat)
    ensures multiset(Removed(ls, fn)) == multiset(InOrder(ls, fn))
  {
    hide Find;
    if Find(ls, fn) < |ls| {
      MovedLast(ls, Find(ls, fn));
    }
  }

  lemma MovedLast(ls: seq<Listener>, i: nat)
    requires i < |ls|
    ensures multiset(ls[i := ls[|ls| - 1]][..|ls| - 1]) == multiset(ls[..i] + ls[i + 1..])
  {
    if i < |ls| - 1 {
      Parts(ls, i);
      SameMembers(ls[..i], ls[|ls| - 1], ls[i + 1..|ls| - 1]);
    } else {
      LastRemoved(ls);
    }
  }

  lemma Parts(ls: seq<Listener>, i: nat)
    requires i < |ls| - 1
    ensures var last := ls[|ls| - 1];
            && ls[i := last][..|ls| - 1] == ls[..i] + [last] + ls[i + 1..|ls| - 1]
            && ls[..i] + ls[i + 1..] == ls[..i] + (ls[i + 1..|ls| - 1] + [last])
  {
  }

  lemma LastRemoved(ls: seq<Listener>)
    requires ls != []
    ensures ls[|ls| - 1 := ls[|ls| - 1]][..|ls| - 1] == ls[..|ls| - 1] + ls[|ls|..]
  {
  }

  lemma SameMembers(a: seq<Listener>, x: Listener, b: seq<Listener>)
    ensures multiset(a + [x] + b) == multiset(a + (b + [x]))
  {
  }

  class Table {
    const entries: array<Listener>
    var count: nat

    ghost predicate Valid()
      reads this
    {
      entries.Length == MAX_LISTENERS && count <= MAX_LISTENERS
    }

    ghost function Value(): seq<Listener>
      reads this, entries
      requires Valid()
    {
      entries[..count]
    }

    constructor ()
      ensures Valid() && Value() == [] && fresh(entries)
    {
      entries := new Listener[MAX_LISTENERS](_ => Listener(0, 0));
      count := 0;
    }

    method Register(l: Listener) returns (rc: int)
      requires Valid()
      modifies this, entries
      ensures Valid()
      ensures rc == if |old(Value())| < MAX_LISTENERS then 0 else -1
      ensures Value() == Registered(old(Value()), l)
    {
      if count >= MAX_LISTENERS {
        return -1;
      }
      entries[count] := l;
      count := count + 1;
      return 0;
    }

    method Unregister(fn: nat) returns (rc: int)
      requires Valid()
      modifies this, entries
      ensures Valid()
      ensures rc == if exists l :: l in old(Value()) && l.fn == fn then 0 else -1
      ensures Value() == Removed(old(Value()), fn)
    {
      ghost var ls := Value();
      for i := 0 to count
        invariant Value() == ls
        invariant i <= Find(ls, fn)
      {
        if entries[i].fn == fn {
          assert Find(ls, fn) == i;
          assert ls[i] in ls;
          count := count - 1;
          entries[i] := entries[count];
          return 0;
        }
      }
      return -1;
    }
  }
}
