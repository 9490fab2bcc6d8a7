/** The threads that use a blocking object: parked on one of its two wait lists, woken by a peer but not run
    since, or woken with an error but not run since.  `M` is what a sender carries. */
module Parking {
  import opened Rings
  import opened Kernel
  import opened WaitLists

  /** The local variables of a call that has not returned. */
  datatype Call<M> = Send(msg: M, timeout: int) | Recv(timeout: int)

  /** `since` says when a thread was parked, on a clock that ticks with every parking. */
  datatype Threads<M> = Threads(recvWait: seq<Tid>, sendWait: seq<Tid>, calls: map<Tid, Call<M>>,
                                recvAwake: set<Tid>, sendAwake: set<Tid>, failed: map<Tid, Status>,
                                now: nat, since: map<Tid, nat>)

  function Nobody<M>(): Threads<M>
  {
    Threads([], [], map[], {}, {}, map[], 0, map[])
  }

  predicate Idle<M>(th: Threads<M>, t: Tid)
  {
    t !in th.calls && t !in th.failed
  }

  /** Each thread inside a call is in exactly one place. */
  ghost predicate Placed<M>(th: Threads<M>)
  {
    && Distinct(th.recvWait) && Distinct(th.sendWait)
    && th.calls.Keys !! th.failed.Keys
    && (forall t :: t in th.calls ==>
          if th.calls[t].Recv?
          then (t in th.recvWait <==> t !in th.recvAwake) && t !in th.sendWait && t !in th.sendAwake
          else (t in th.sendWait <==> t !in th.sendAwake) && t !in th.recvWait && t !in th.recvAwake)
    && (forall t :: t in th.recvWait || t in th.sendWait || t in th.recvAwake || t in th.sendAwake ==> t in th.calls)
  }

  function ParkRecv<M>(th: Threads<M>, t: Tid, timeout: int, o: Order): Threads<M>
  {
    th.(recvWait := Enqueue(o.flag, th.recvWait, t, o.prio), calls := th.calls[t := Recv(timeout)],
        now := th.now + 1, since := th.since[t := th.now])
  }

  function ParkSend<M>(th: Threads<M>, t: Tid, msg: M, timeout: int, o: Order): Threads<M>
  {
    th.(sendWait := Enqueue(o.flag, th.sendWait, t, o.prio), calls := th.calls[t := Send(msg, timeout)],
        now := th.now + 1, since := th.since[t := th.now])
  }

  /** Memory pools park at the front of their list. */
  function ParkFront<M>(th: Threads<M>, t: Tid, timeout: int): Threads<M>
  {
    th.(recvWait := [t] + th.recvWait, calls := th.calls[t := Recv(timeout)],
        now := th.now + 1, since := th.since[t := th.now])
  }

  /** rt_ipc_list_resume on the receivers' list, if anyone is there. */
  function WakeRecv<M>(th: Threads<M>): Threads<M>
  {
    if th.recvWait == [] then th
    else th.(recvWait := th.recvWait[1..], recvAwake := th.recvAwake + {th.recvWait[0]})
  }

  function WakeSend<M>(th: Threads<M>): Threads<M>
  {
    if th.sendWait == [] then th
    else th.(sendWait := th.sendWait[1..], sendAwake := th.sendAwake + {th.sendWait[0]})
  }

  /** A woken thread runs again. */
  function Runs<M>(th: Threads<M>, t: Tid): Threads<M>
  {
    th.(recvAwake := th.recvAwake - {t}, sendAwake := th.sendAwake - {t}, calls := th.calls - {t})
  }

  predicate CanExpire<M>(th: Threads<M>, t: Tid)
  {
    (t in th.recvWait || t in th.sendWait) && t in th.calls && th.calls[t].timeout > 0
  }

  /** rt_thread_timeout for a parked thread. */
  function Expired<M>(th: Threads<M>, t: Tid): Threads<M>
  {
    th.(recvWait := Dropped(th.recvWait, t), sendWait := Dropped(th.sendWait, t), calls := th.calls - {t},
        failed := th.failed[t := Timeout])
  }

  /** A thread that was woken with an error returns it to its caller. */
  function GivenUp<M>(th: Threads<M>, t: Tid): Threads<M>
  {
    th.(failed := th.failed - {t})
  }

  /** rt_ipc_list_resume_all on both lists. */
  function AllFailed<M>(th: Threads<M>): Threads<M>
  {
    var parked := set t | t in th.recvWait + th.sendWait;
    th.(recvWait := [], sendWait := [], calls := th.calls - parked,
        failed := th.failed + map t | t in parked :: Failed)
  }

  // ----- what the moves keep -----

  /** No wakeup is lost: with `items` to receive and `room` to send into, receivers are parked only if as many
      have been woken and will look for the items, and likewise senders.  A section starts with one item or
      one place of room less to account for when a woken thread runs it. */
  ghost predicate NoLostWakeup<M>(th: Threads<M>, items: int, room: int)
  {
    && (th.recvWait != [] ==> items <= |th.recvAwake|)
    && (th.sendWait != [] ==> room <= |th.sendAwake|)
  }

  ghost predicate Sound<M>(th: Threads<M>, items: int, room: int)
  {
    Placed(th) && NoLostWakeup(th, items, room)
  }

  lemma Weaker<M>(th: Threads<M>, items: int, room: int)
    requires Sound(th, items, room)
    ensures Sound(th, items - 1, room) && Sound(th, items, room - 1)
  {
  }

  /** Nobody can miss what is not there. */
  lemma NoneToMiss<M>(th: Threads<M>, items: int, room: int)
    ensures Sound(th, items, -1) ==> Sound(th, items, 0)
    ensures Sound(th, -1, room) ==> Sound(th, 0, room)
  {
  }

  lemma ParkRecvKeeps<M>(th: Threads<M>, t: Tid, timeout: int, o: Order, room: int)
    requires Sound(th, -1, room) && Idle(th, t)
    ensures Sound(ParkRecv(th, t, timeout, o), 0, room)
  {
    EnqueueMembers(o.flag, th.recvWait, t, o.prio);
    EnqueueElements(o.flag, th.recvWait, t, o.prio);
  }

  lemma ParkFrontKeeps<M>(th: Threads<M>, t: Tid, timeout: int, room: int)
    requires Sound(th, -1, room) && Idle(th, t)
    ensures Sound(ParkFront(th, t, timeout), 0, room)
  {
    DistinctEnds(th.recvWait, t);
  }

  lemma ParkSendKeeps<M>(th: Threads<M>, t: Tid, msg: M, timeout: int, o: Order, items: int)
    requires Sound(th, items, -1) && Idle(th, t)
    ensures Sound(ParkSend(th, t, msg, timeout, o), items, 0)
  {
    EnqueueMembers(o.flag, th.sendWait, t, o.prio);
    EnqueueElements(o.flag, th.sendWait, t, o.prio);
  }

  lemma WakeRecvKeeps<M>(th: Threads<M>, items: int, room: int)
    requires Sound(th, items, room)
    ensures Sound(WakeRecv(th), items + 1, room)
  {
    if th.recvWait != [] { HeadTail(th.recvWait); }
  }

  lemma WakeSendKeeps<M>(th: Threads<M>, items: int, room: int)
    requires Sound(th, items, room)
    ensures Sound(WakeSend(th), items, room + 1)
  {
    if th.sendWait != [] { HeadTail(th.sendWait); }
  }

  lemma RunsKeeps<M>(th: Threads<M>, t: Tid, items: int, room: int)
    requires Sound(th, items, room) && t in th.calls
    requires if th.calls[t].Recv? then t in th.recvAwake else t in th.sendAwake
    ensures Idle(Runs(th, t), t)
    ensures th.calls[t].Recv? ==> Sound(Runs(th, t), items - 1, room)
    ensures th.calls[t].Send? ==> Sound(Runs(th, t), items, room - 1)
  {
  }

  lemma ExpiredKeeps<M>(th: Threads<M>, t: Tid, items: int, room: int)
    requires Sound(th, items, room) && (t in th.recvWait || t in th.sendWait)
    ensures Sound(Expired(th, t), items, room)
  {
    DroppedMembers(th.recvWait, t);
    DroppedMembers(th.sendWait, t);
  }

  lemma GivenUpKeeps<M>(th: Threads<M>, t: Tid, items: int, room: int)
    requires Sound(th, items, room)
    ensures Sound(GivenUp(th, t), items, room)
  {
  }

  lemma AllFailedKeeps<M>(th: Threads<M>, items: int, room: int)
    requires Placed(th)
    ensures Sound(AllFailed(th), items, room)
  {
  }

  // ----- whose turn it is -----

  /** Both lists are in the order in which their threads are to be served. */
  ghost predicate Lined<M>(th: Threads<M>, o: Order)
  {
    && InLine(th.recvWait, th.since, o) && Arrived(th.recvWait, th.since, th.now)
    && InLine(th.sendWait, th.since, o) && Arrived(th.sendWait, th.since, th.now)
  }

  /** Whoever is woken on the way from `th` to `th'` is ahead of everyone who still waits. */
  ghost predicate Serves<M>(th: Threads<M>, th': Threads<M>, o: Order)
  {
    && (forall x, y :: x in th'.recvAwake && x !in th.recvAwake && y in th'.recvWait ==> Ahead(x, y, th'.since, o))
    && (forall x, y :: x in th'.sendAwake && x !in th.sendAwake && y in th'.sendWait ==> Ahead(x, y, th'.since, o))
  }

  /** The other list does not notice. */
  lemma ElsewhereInLine(q: seq<Tid>, t: Tid, since: map<Tid, nat>, now: nat, o: Order)
    requires InLine(q, since, o) && Arrived(q, since, now) && t !in q
    ensures InLine(q, since[t := now], o) && Arrived(q, since[t := now], now + 1)
  {
    forall i, j | 0 <= i < j < |q| ensures Ahead(q[i], q[j], since[t := now], o) {
      assert q[i] in q && q[j] in q && Ahead(q[i], q[j], since, o);
    }
  }

  lemma ParkLines<M>(th: Threads<M>, t: Tid, msg: M, timeout: int, o: Order)
    requires Placed(th) && Lined(th, o) && Idle(th, t)
    ensures Lined(ParkRecv(th, t, timeout, o), o) && Serves(th, ParkRecv(th, t, timeout, o), o)
    ensures Lined(ParkSend(th, t, msg, timeout, o), o) && Serves(th, ParkSend(th, t, msg, timeout, o), o)
  {
    hide InLine, Arrived;
    assert t !in th.recvWait && t !in th.sendWait;
    EnqueueInLine(th.recvWait, t, th.since, th.now, o);
    EnqueueInLine(th.sendWait, t, th.since, th.now, o);
    ElsewhereInLine(th.recvWait, t, th.since, th.now, o);
    ElsewhereInLine(th.sendWait, t, th.since, th.now, o);
  }

  /** A wake-up takes the thread whose turn it is. */
  lemma WakeLines<M>(th: Threads<M>, o: Order)
    requires Lined(th, o)
    ensures Lined(WakeRecv(th), o) && Lined(WakeSend(th), o) && Serves(th, WakeRecv(th), o) && Serves(th, WakeSend(th), o)
  {
    hide Ahead;
    if th.recvWait != [] {
      WithoutInLine(th.recvWait, 0, th.since, th.now, o);
      assert Without(th.recvWait, 0) == th.recvWait[1..];
    }
    if th.sendWait != [] {
      WithoutInLine(th.sendWait, 0, th.since, th.now, o);
      assert Without(th.sendWait, 0) == th.sendWait[1..];
    }
  }

  lemma LeaveLines<M>(th: Threads<M>, t: Tid, o: Order)
    requires Lined(th, o)
    ensures Lined(Expired(th, t), o) && Serves(th, Expired(th, t), o)
    ensures Lined(Runs(th, t), o) && Serves(th, Runs(th, t), o)
    ensures Lined(GivenUp(th, t), o) && Serves(th, GivenUp(th, t), o)
    ensures Lined(AllFailed(th), o) && Serves(th, AllFailed(th), o)
  {
    DroppedInLine(th.recvWait, t, th.since, th.now, o);
    DroppedInLine(th.sendWait, t, th.since, th.now, o);
  }

  lemma NobodyWoken<M>(th: Threads<M>, th': Threads<M>, o: Order)
    requires th'.recvAwake <= th.recvAwake && th'.sendAwake <= th.sendAwake
    ensures Serves(th, th', o)
  {
  }

  lemma LinedAtFirst<M>(o: Order)
    ensures Lined<M>(Nobody(), o)
  {
  }

  /** A woken thread that runs again before it wakes or parks leaves nobody out. */
  lemma RunsThenServes<M>(th: Threads<M>, t: Tid, th': Threads<M>, o: Order)
    requires Placed(th) && t in th.calls && Serves(Runs(th, t), th', o)
    requires t !in th'.recvAwake && t !in th'.sendAwake
    ensures Serves(th, th', o)
  {
  }

  /** The order of a list on which the last to come stands in front. */
  ghost predicate Stack(q: seq<Tid>, since: map<Tid, nat>)
  {
    forall i, j :: 0 <= i < j < |q| ==> Later(q[i], q[j], since)
  }

  predicate Later(x: Tid, y: Tid, since: map<Tid, nat>)
  {
    x in since && y in since && since[x] > since[y]
  }

  /** Parked at the front, the last to come is the first to be served. */
  ghost predicate Stacked<M>(th: Threads<M>)
  {
    Arrived(th.recvWait, th.since, th.now) && Stack(th.recvWait, th.since)
  }

  lemma StackWithout(q: seq<Tid>, k: nat, since: map<Tid, nat>, now: nat)
    requires Stack(q, since) && Arrived(q, since, now) && k < |q|
    ensures Stack(Without(q, k), since) && Arrived(Without(q, k), since, now)
  {
    hide Later;
    var r := Without(q, k);
    forall i, j | 0 <= i < j < |r| ensures Later(r[i], r[j], since) {
      assert r[i] == q[if i < k then i else i + 1] && r[j] == q[if j < k then j else j + 1];
    }
  }

  lemma StackPush(q: seq<Tid>, t: Tid, since: map<Tid, nat>, now: nat)
    requires Stack(q, since) && Arrived(q, since, now) && t !in q
    ensures Stack([t] + q, since[t := now]) && Arrived([t] + q, since[t := now], now + 1)
  {
    var r, since' := [t] + q, since[t := now];
    forall i, j | 0 <= i < j < |r| ensures Later(r[i], r[j], since') {
      assert r[j] == q[j - 1] && q[j - 1] in q;
      if i > 0 { assert r[i] == q[i - 1] && q[i - 1] in q && Later(q[i - 1], q[j - 1], since); }
    }
  }

  lemma StackedBy<M>(th: Threads<M>, t: Tid, timeout: int)
    requires Stacked(th)
    ensures t !in th.recvWait ==> Stacked(ParkFront(th, t, timeout))
    ensures Stacked(WakeRecv(th)) && Stacked(Runs(th, t))
  {
    hide Stack, Arrived;
    if t !in th.recvWait { StackPush(th.recvWait, t, th.since, th.now); }
    if th.recvWait != [] {
      StackWithout(th.recvWait, 0, th.since, th.now);
      assert Without(th.recvWait, 0) == th.recvWait[1..];
    }
  }

  lemma StackedDropped<M>(th: Threads<M>, t: Tid)
    requires Stacked(th)
    ensures Stacked(Expired(th, t))
  {
    hide Stack, Arrived;
    DroppedIs(th.recvWait, t);
    if PlaceOf(th.recvWait, t) < |th.recvWait| { StackWithout(th.recvWait, PlaceOf(th.recvWait, t), th.since, th.now); }
  }
}
