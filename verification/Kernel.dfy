/** Threads as the blocking objects of the kernel see them. */
module Kernel {
  import opened Rings
  import opened WaitLists

  type Tid = nat

  datatype Option<T> = None | Some(value: T)

  /** RT_EOK, -RT_ETIMEOUT, -RT_EFULL and -RT_ERROR. */
  datatype Status = Ok | Timeout | Full | Failed

  /** How a section with interrupts disabled ends for the thread that runs it: its call goes on or returns,
      having woken at most one thread on the way, or the thread is parked. */
  datatype Outcome = Done(status: Status, woken: Option<Tid>) | Parked

  /** RT_UINT16_MAX and RT_UINT8_MAX, the limits of the counters in the objects. */
  const UINT16_MAX := 0xFFFF
  const UINT8_MAX := 0xFF

  /** What is left of a waiting time when the thread runs again: waiting forever stays so, a tick count
      does not grow and does not go below zero. */
  predicate TimeLeft(timeout: int, left: int)
  {
    if timeout > 0 then 0 <= left <= timeout else left == timeout
  }

  /** The queue `q` without the thread `t`, as a timeout leaves it. */
  function Dropped(q: seq<Tid>, t: Tid): (r: seq<Tid>)
    ensures t !in q ==> r == q
  {
    if q == [] then [] else if q[0] == t then q[1..] else [q[0]] + Dropped(q[1..], t)
  }

  lemma {:induction false} DroppedMembers(q: seq<Tid>, t: Tid)
    requires Distinct(q)
    ensures Distinct(Dropped(q, t))
    ensures forall x :: x in Dropped(q, t) <==> x in q && x != t
  {
    if q != [] {
      var rest := q[1..];
      assert q == [q[0]] + rest;
      DistinctTail(q[0], rest);
      DroppedMembers(rest, t);
      if q[0] != t {
        DistinctInsert(Dropped(rest, t), 0, q[0]);
        assert Dropped(rest, t)[..0] + [q[0]] + Dropped(rest, t)[0..] == [q[0]] + Dropped(rest, t);
      }
    }
  }

  lemma ConsSorted(x: Tid, q: seq<Tid>, prio: nat -> nat)
    ensures Sorted([x] + q, prio) <==> Sorted(q, prio) && forall y :: y in q ==> prio(x) <= prio(y)
  {
    var r := [x] + q;
    if Sorted(r, prio) {
      forall i, j | 0 <= i < j < |q| ensures prio(q[i]) <= prio(q[j]) {
        assert prio(r[i + 1]) <= prio(r[j + 1]);
      }
      forall y | y in q ensures prio(x) <= prio(y) {
        var k :| 0 <= k < |q| && q[k] == y;
        assert prio(r[0]) <= prio(r[k + 1]);
      }
    }
  }

  lemma {:induction false} DroppedSorted(q: seq<Tid>, t: Tid, prio: nat -> nat)
    requires Sorted(q, prio)
    ensures Sorted(Dropped(q, t), prio)
    ensures forall x :: x in Dropped(q, t) ==> x in q
  {
    if q != [] {
      assert q == [q[0]] + q[1..];
      ConsSorted(q[0], q[1..], prio);
      DroppedSorted(q[1..], t, prio);
      ConsSorted(q[0], Dropped(q[1..], t), prio);
    }
  }

  // ----- whose turn it is -----

  /** `x` is served before `y`: it is more urgent where that counts, or as urgent and came earlier. */
  predicate Ahead(x: Tid, y: Tid, since: map<Tid, nat>, o: Order)
  {
    && x in since && y in since
    && (if o.flag.PRIO? && o.prio(x) != o.prio(y) then o.prio(x) < o.prio(y) else since[x] < since[y])
  }

  /** The threads of a wait list stand in the order in which they are to be served. */
  ghost predicate InLine(q: seq<Tid>, since: map<Tid, nat>, o: Order)
  {
    forall i, j :: 0 <= i < j < |q| ==> Ahead(q[i], q[j], since, o)
  }

  /** Everybody on the list came before the moment `now`. */
  ghost predicate Arrived(q: seq<Tid>, since: map<Tid, nat>, now: nat)
  {
    forall t :: t in q ==> t in since && since[t] < now
  }

  /** A newcomer goes behind all who are at least as urgent and in front of all others. */
  lemma EnqueueInLine(q: seq<Tid>, t: Tid, since: map<Tid, nat>, now: nat, o: Order)
    requires InLine(q, since, o) && Arrived(q, since, now) && t !in q
    ensures InLine(Enqueue(o.flag, q, t, o.prio), since[t := now], o)
    ensures Arrived(Enqueue(o.flag, q, t, o.prio), since[t := now], now + 1)
  {
    EnqueueElements(o.flag, q, t, o.prio);
    var k, since' := Slot(o.flag, q, t, o.prio), since[t := now];
    forall i | 0 <= i < |q| ensures if i < k then Ahead(q[i], t, since', o) else Ahead(t, q[i], since', o) {
      assert q[i] in q;
      if o.flag.PRIO? && k < i { assert Ahead(q[k], q[i], since, o); }
    }
    forall i, j | 0 <= i < j < |q| ensures Ahead(q[i], q[j], since', o) {
      assert q[i] in q && q[j] in q && Ahead(q[i], q[j], since, o);
    }
    InsertInLine(q, t, k, since', o);
  }

  lemma InsertInLine(q: seq<Tid>, t: Tid, k: nat, since: map<Tid, nat>, o: Order)
    requires InLine(q, since, o) && k <= |q|
    requires forall i :: 0 <= i < |q| ==> if i < k then Ahead(q[i], t, since, o) else Ahead(t, q[i], since, o)
    ensures InLine(q[..k] + [t] + q[k..], since, o)
  {
    hide Ahead;
    var r := q[..k] + [t] + q[k..];
    forall i, j | 0 <= i < j < |r| ensures Ahead(r[i], r[j], since, o) {
      if j > k { assert r[j] == q[j - 1]; }
      if i > k { assert r[i] == q[i - 1]; }
    }
  }

  /** Whoever leaves the list, the others stay in line. */
  lemma WithoutInLine(q: seq<Tid>, k: nat, since: map<Tid, nat>, now: nat, o: Order)
    requires InLine(q, since, o) && Arrived(q, since, now) && k < |q|
    ensures InLine(Without(q, k), since, o) && Arrived(Without(q, k), since, now)
  {
    hide Ahead;
    var r := Without(q, k);
    forall i, j | 0 <= i < j < |r| ensures Ahead(r[i], r[j], since, o) {
      assert r[i] == q[if i < k then i else i + 1] && r[j] == q[if j < k then j else j + 1];
    }
  }

  /** Where `t` stands, or the end. */
  function PlaceOf(q: seq<Tid>, t: Tid): (k: nat)
    ensures k <= |q|
  {
    if q == [] || q[0] == t then 0 else 1 + PlaceOf(q[1..], t)
  }

  lemma {:induction false} DroppedIs(q: seq<Tid>, t: Tid)
    ensures var k := PlaceOf(q, t); Dropped(q, t) == if k < |q| then Without(q, k) else q
  {
    if q != [] {
      DroppedIs(q[1..], t);
      WithoutBehind(q, PlaceOf(q[1..], t));
    }
  }

  lemma WithoutBehind(q: seq<Tid>, k: nat)
    requires q != [] && k <= |q[1..]|
    ensures Without(q, 0) == q[1..] && [q[0]] + q[1..] == q
    ensures k < |q[1..]| ==> [q[0]] + Without(q[1..], k) == Without(q, k + 1)
  {
  }

  lemma DroppedInLine(q: seq<Tid>, t: Tid, since: map<Tid, nat>, now: nat, o: Order)
    requires InLine(q, since, o) && Arrived(q, since, now)
    ensures InLine(Dropped(q, t), since, o) && Arrived(Dropped(q, t), since, now)
  {
    DroppedIs(q, t);
    if PlaceOf(q, t) < |q| { WithoutInLine(q, PlaceOf(q, t), since, now, o); }
  }
}
