/** Mutexes of ipc.c, with priority inheritance.  A release hands the mutex straight to the first parked thread.
    The threads' priorities are changed by this mutex only. */
module Mutexes {
  import opened Rings
  import opened Kernel
  import opened WaitLists
  import opened Parking

  /** The object between two sections, and the current priorities that differ from the threads' own. */
  datatype Mutex = Mutex(value: nat, owner: Option<Tid>, original: nat, hold: nat, waiting: seq<Tid>,
                         current: map<Tid, nat>)

  /** The saved priority of a mutex without an owner. */
  const NO_PRIORITY := 0xFF

  /** thread->current_priority. */
  function Current(current: map<Tid, nat>, t: Tid, o: Order): nat
  {
    if t in current then current[t] else o.prio(t)
  }

  /** The order that decides about a place on the list at this moment. */
  function Now(current: map<Tid, nat>, o: Order): Order
  {
    Order(o.flag, t => Current(current, t, o))
  }

  /** rt_mutex_take from disabling to enabling interrupts. */
  function TakeSection(m: Mutex, t: Tid, time: int, o: Order): (Mutex, Outcome)
  {
    if m.owner == Some(t) then
      if m.hold < UINT8_MAX then (m.(hold := m.hold + 1), Done(Ok, None)) else (m, Done(Full, None))
    else if m.value > 0 then
      var m' := m.(value := m.value - 1, owner := Some(t), original := Current(m.current, t, o));
      if m.hold < UINT8_MAX then (m'.(hold := m.hold + 1), Done(Ok, None)) else (m', Done(Full, None))
    else if time == 0 then (m, Done(Timeout, None))
    else (m.(current := Inherited(m, t, o),
             waiting := Enqueue(o.flag, m.waiting, t, Now(Inherited(m, t, o), o).prio)), Parked)
  }

  /** A more urgent newcomer lends the owner its priority. */
  function Inherited(m: Mutex, t: Tid, o: Order): map<Tid, nat>
  {
    if m.owner.Some? && Current(m.current, t, o) < Current(m.current, m.owner.value, o)
    then m.current[m.owner.value := Current(m.current, t, o)] else m.current
  }

  /** The owner gets its saved priority back. */
  function Restored(m: Mutex, t: Tid, o: Order): map<Tid, nat>
  {
    if m.original != Current(m.current, t, o) then m.current[t := m.original] else m.current
  }

  /** rt_mutex_release from disabling to enabling interrupts; the hold count has 8 bits. */
  function ReleaseSection(m: Mutex, t: Tid, o: Order): (Mutex, Outcome)
  {
    var hold := (m.hold + UINT8_MAX) % (UINT8_MAX + 1);
    if m.owner != Some(t) then (m, Done(Failed, None))
    else if hold > 0 then (m.(hold := hold), Done(Ok, None))
    else
      var current := Restored(m, t, o);
      if m.waiting != [] then
        var next := m.waiting[0];
        (m.(owner := Some(next), original := Current(current, next, o), hold := 1, waiting := m.waiting[1..],
            current := current), Done(Ok, Some(next)))
      else if m.value < UINT16_MAX then
        (m.(value := m.value + 1, owner := None, original := NO_PRIORITY, hold := 0, current := current), Done(Ok, None))
      else (m.(hold := 0, current := current), Done(Full, None))
  }

  /** rt_mutex_init. */
  function Fresh(): Mutex
  {
    Mutex(1, None, NO_PRIORITY, 0, [], map[])
  }

  // ----- what the sections keep -----

  /** The value is 1 exactly while nobody owns the mutex, which is exactly while the hold count is 0; and
      threads wait only for an owned mutex. */
  ghost predicate Owned(m: Mutex)
  {
    && m.value == (if m.owner.None? then 1 else 0)
    && (m.owner.None? <==> m.hold == 0) && m.hold <= UINT8_MAX
    && (m.waiting != [] ==> m.owner.Some?)
    && (m.owner.Some? ==> m.owner.value !in m.waiting)
  }

  /** Everyone but the owner runs at its own priority, and the owner will get its own back. */
  ghost predicate Based(m: Mutex, o: Order)
  {
    && (forall t: Tid :: m.owner != Some(t) ==> Current(m.current, t, o) == o.prio(t))
    && (m.owner.Some? ==> m.original == o.prio(m.owner.value))
  }

  /** The owner is at least as urgent as every thread that waits. */
  ghost predicate Urgent(m: Mutex, o: Order)
  {
    m.owner.Some? ==> forall w :: w in m.waiting ==> Current(m.current, m.owner.value, o) <= o.prio(w)
  }

  ghost predicate Valid(m: Mutex, o: Order)
  {
    && Distinct(m.waiting) && Owned(m) && Based(m, o)
    && (o.flag.PRIO? ==> Sorted(m.waiting, o.prio) && Urgent(m, o))
  }

  lemma {:induction false} SlotAgrees(q: seq<Tid>, x: Tid, p: nat -> nat, p': nat -> nat, i: nat)
    requires i <= |q| && p(x) == p'(x) && forall y :: y in q ==> p(y) == p'(y)
    ensures SlotFrom(q, x, p, i) == SlotFrom(q, x, p', i)
    decreases |q| - i
  {
    if i < |q| {
      assert q[i] in q;
      SlotAgrees(q, x, p, p', i + 1);
    }
  }

  /** Nobody on the list has an inherited priority, so the list is kept by the threads' own. */
  lemma EnqueueByOwn(m: Mutex, t: Tid, current: map<Tid, nat>, o: Order)
    requires Current(current, t, o) == o.prio(t) && forall y :: y in m.waiting ==> Current(current, y, o) == o.prio(y)
    ensures Enqueue(o.flag, m.waiting, t, Now(current, o).prio) == Enqueue(o.flag, m.waiting, t, o.prio)
  {
    SlotAgrees(m.waiting, t, Now(current, o).prio, o.prio, 0);
  }

  lemma WaitKeepsValid(m: Mutex, t: Tid, q: seq<Tid>, o: Order)
    requires Valid(m, o) && m.owner.Some? && m.owner != Some(t)
    requires Distinct(q) && (forall y :: y in q <==> y == t || y in m.waiting)
    requires o.flag.PRIO? ==> Sorted(q, o.prio)
    ensures Valid(m.(current := Inherited(m, t, o), waiting := q), o)
  {
  }

  lemma TakeKeepsValid(m: Mutex, t: Tid, time: int, o: Order)
    requires Valid(m, o) && t !in m.waiting
    ensures Valid(TakeSection(m, t, time, o).0, o)
  {
    if m.owner.Some? && m.owner != Some(t) && time != 0 {
      var q := Enqueue(o.flag, m.waiting, t, o.prio);
      EnqueueByOwn(m, t, Inherited(m, t, o), o);
      EnqueueMembers(o.flag, m.waiting, t, o.prio);
      EnqueueElements(o.flag, m.waiting, t, o.prio);
      if o.flag.PRIO? { EnqueueSorted(m.waiting, t, o.prio); }
      WaitKeepsValid(m, t, q, o);
    }
  }

  lemma ReleaseKeepsValid(m: Mutex, t: Tid, o: Order)
    requires Valid(m, o)
    ensures Valid(ReleaseSection(m, t, o).0, o)
  {
    if m.waiting != [] { HeadTail(m.waiting); }
  }

  /** With any flag, a hand-over leaves the new owner at least as urgent as the waiters if and only if the head of the
      list was. */
  lemma HandOverUrgent(m: Mutex, t: Tid, o: Order)
    requires Distinct(m.waiting) && Owned(m) && Based(m, o) && m.owner == Some(t) && m.hold == 1 && m.waiting != []
    ensures Urgent(ReleaseSection(m, t, o).0, o) <==> forall w :: w in m.waiting ==> o.prio(m.waiting[0]) <= o.prio(w)
  {
    HeadTail(m.waiting);
  }

  /** The only overflow a caller can see is its own 256th nested take. */
  lemma FullOnlyWhenNested(m: Mutex, t: Tid, time: int, o: Order)
    requires Valid(m, o)
    ensures TakeSection(m, t, time, o).1 == Done(Full, None) <==> m.owner == Some(t) && m.hold == UINT8_MAX
    ensures ReleaseSection(m, t, o).1 != Done(Full, None)
    ensures ReleaseSection(m, t, o).1 == Done(Failed, None) <==> m.owner != Some(t)
  {
  }

  /** A take succeeds at once if nobody else owns the mutex, and otherwise waits unless it must not. */
  lemma TakeAnswers(m: Mutex, t: Tid, time: int, o: Order)
    requires Valid(m, o)
    ensures var r, foreign := TakeSection(m, t, time, o).1, m.owner.Some? && m.owner.value != t;
            && (r == Parked <==> foreign && time != 0)
            && (r == Done(Timeout, None) <==> foreign && time == 0)
            && (r == Done(Ok, None) <==> m.owner.None? || (m.owner == Some(t) && m.hold < UINT8_MAX))
  {
  }

  /** A release undoes the take before it, nested or not. */
  lemma ReleaseUndoesTake(m: Mutex, t: Tid, time: int, o: Order)
    requires Valid(m, o) && TakeSection(m, t, time, o).1 == Done(Ok, None)
    ensures ReleaseSection(TakeSection(m, t, time, o).0, t, o)
         == (if m.owner.None? then m.(original := NO_PRIORITY) else m, Done(Ok, None))
  {
  }

  /** A thread that waits lends the owner its priority, under any flag and for as long as that owns the mutex. */
  lemma WaitLends(m: Mutex, t: Tid, time: int, o: Order)
    requires Valid(m, o) && TakeSection(m, t, time, o).1 == Parked
    ensures var m' := TakeSection(m, t, time, o).0;
            var was := Current(m.current, m.owner.value, o);
            && m'.owner == m.owner && m'.hold == m.hold
            && Current(m'.current, m.owner.value, o) == if o.prio(t) < was then o.prio(t) else was
  {
  }

  // ----- the object together with the threads that use it -----

  /** Threads in `th.recvAwake` were handed the mutex and have not run since.  `balance` counts the takes of a thread
      that returned RT_EOK or are about to, less its releases; `lenders` are the threads that began to wait for the
      present owner. */
  datatype System = System(m: Mutex, th: Threads<()>, balance: map<Tid, int>, lenders: set<Tid>)

  function Balance(balance: map<Tid, int>, t: Tid): int
  {
    if t in balance then balance[t] else 0
  }

  function Initial(): System
  {
    System(Fresh(), Nobody(), map[], {})
  }

  datatype Event =
    | TakeCall(t: Tid, time: int)
    | Return(t: Tid)
    | Release(t: Tid)
    | Expire(t: Tid)
    | GiveUp(t: Tid)

  predicate Enabled(s: System, e: Event)
  {
    match e
    case TakeCall(t, _) => Idle(s.th, t)
    case Return(t) => t in s.th.recvAwake
    case Release(t) => Idle(s.th, t)
    case Expire(t) => CanExpire(s.th, t)
    case GiveUp(t) => t in s.th.failed
  }

  function AfterTake(s: System, t: Tid, time: int, o: Order): System
  {
    match TakeSection(s.m, t, time, o)
    case (m, Parked) => s.(m := m, th := ParkRecv(s.th, t, time, Now(m.current, o)), lenders := s.lenders + {t})
    case (m, Done(Ok, _)) =>
      s.(m := m, balance := s.balance[t := Balance(s.balance, t) + 1],
         lenders := if m.owner == s.m.owner then s.lenders else {})
    case (m, Done(_, _)) => s.(m := m)
  }

  function AfterRelease(s: System, t: Tid, o: Order): System
  {
    match ReleaseSection(s.m, t, o)
    case (m, Done(Ok, Some(u))) =>
      s.(m := m, th := WakeRecv(s.th), lenders := {},
         balance := s.balance[t := Balance(s.balance, t) - 1][u := Balance(s.balance, u) + 1])
    case (m, Done(Ok, None)) =>
      s.(m := m, balance := s.balance[t := Balance(s.balance, t) - 1],
         lenders := if m.owner == s.m.owner then s.lenders else {})
    case (m, _) => s.(m := m)
  }

  function Step(s: System, e: Event, o: Order): System
    requires Enabled(s, e)
  {
    match e
    case TakeCall(t, time) => AfterTake(s, t, time, o)
    case Return(t) => s.(th := Runs(s.th, t))
    case Release(t) => AfterRelease(s, t, o)
    case Expire(t) => s.(m := s.m.(waiting := Dropped(s.m.waiting, t)), th := Expired(s.th, t))
    case GiveUp(t) => s.(th := GivenUp(s.th, t))
  }

  /** A take that blocked returns RT_EOK only to the thread that owns the mutex. */
  ghost predicate OnlyOwnerWoken(s: System)
  {
    forall t :: t in s.th.recvAwake ==> s.m.owner == Some(t)
  }

  /** The hold count is how often its owner took the mutex and has not released it; nobody else has taken it. */
  ghost predicate Counted(m: Mutex, balance: map<Tid, int>)
  {
    forall t: Tid :: Balance(balance, t) == if m.owner == Some(t) then m.hold else 0
  }

  /** The owner runs at its own priority, or at that of the most urgent thread that began to wait for it. */
  ghost predicate Lent(m: Mutex, lenders: set<Tid>, o: Order)
  {
    if m.owner.None? then lenders == {}
    else
      var p := Current(m.current, m.owner.value, o);
      && p <= o.prio(m.owner.value) && (forall u :: u in lenders ==> p <= o.prio(u))
      && (p == o.prio(m.owner.value) || exists u :: u in lenders && p == o.prio(u))
  }

  ghost predicate Inv(s: System, o: Order)
  {
    && Valid(s.m, o) && Counted(s.m, s.balance) && Lent(s.m, s.lenders, o)
    && Placed(s.th) && OnlyOwnerWoken(s) && Lined(s.th, o)
    && s.m.waiting == s.th.recvWait && s.th.sendWait == [] && s.th.sendAwake == {}
  }

  lemma TakeKeepsInv(s: System, t: Tid, time: int, o: Order)
    requires Inv(s, o) && Idle(s.th, t)
    ensures var s' := AfterTake(s, t, time, o); Inv(s', o) && Serves(s.th, s'.th, o)
  {
    hide Counted, Lent, Based, Urgent, Sorted, Distinct, Enqueue, Balance, Lined, Serves;
    NobodyWoken(s.th, s.th, o);
    ParkLines(s.th, t, (), time, o);
    if s.m.owner != Some(t) { ParksByOwn(s, t, time, o); }
    TakeKeepsValid(s.m, t, time, o);
    ParkRecvKeeps(s.th, t, time, Now(Inherited(s.m, t, o), o), 0);
    TakeLends(s, t, time, o);
  }

  /** The thread is parked where its own priority says. */
  lemma ParksByOwn(s: System, t: Tid, time: int, o: Order)
    requires Owned(s.m) && Based(s.m, o) && s.m.waiting == s.th.recvWait && s.m.owner != Some(t)
    ensures ParkRecv(s.th, t, time, Now(Inherited(s.m, t, o), o)) == ParkRecv(s.th, t, time, o)
  {
    hide Enqueue;
    EnqueueByOwn(s.m, t, Inherited(s.m, t, o), o);
  }

  lemma TakeLends(s: System, t: Tid, time: int, o: Order)
    requires Valid(s.m, o) && Counted(s.m, s.balance) && Lent(s.m, s.lenders, o)
    ensures var s' := AfterTake(s, t, time, o); Counted(s'.m, s'.balance) && Lent(s'.m, s'.lenders, o)
  {
  }

  lemma ReleaseLends(s: System, t: Tid, o: Order)
    requires Valid(s.m, o) && Counted(s.m, s.balance) && Lent(s.m, s.lenders, o)
    ensures var s' := AfterRelease(s, t, o); Counted(s'.m, s'.balance) && Lent(s'.m, s'.lenders, o)
  {
  }

  lemma ReleaseKeepsInv(s: System, t: Tid, o: Order)
    requires Inv(s, o) && Idle(s.th, t)
    ensures var s' := AfterRelease(s, t, o); Inv(s', o) && Serves(s.th, s'.th, o)
  {
    hide Counted, Lent, Based, Urgent, Sorted, Distinct, Balance, Lined, Serves;
    NobodyWoken(s.th, s.th, o);
    WakeLines(s.th, o);
    ReleaseKeepsValid(s.m, t, o);
    WakeRecvKeeps(s.th, -1, 0);
    ReleaseLends(s, t, o);
  }

  lemma ExpireKeepsInv(s: System, t: Tid, o: Order)
    requires Inv(s, o) && CanExpire(s.th, t)
    ensures Inv(s.(m := s.m.(waiting := Dropped(s.m.waiting, t)), th := Expired(s.th, t)), o)
    ensures Serves(s.th, Expired(s.th, t), o)
  {
    hide Lined, Serves;
    LeaveLines(s.th, t, o);
    DroppedMembers(s.m.waiting, t);
    ExpiredKeeps(s.th, t, -1, 0);
    if o.flag.PRIO? { DroppedSorted(s.m.waiting, t, o.prio); }
  }

  lemma ReturnKeepsInv(s: System, t: Tid, o: Order)
    requires Inv(s, o) && t in s.th.recvAwake
    ensures Inv(s.(th := Runs(s.th, t)), o) && Serves(s.th, Runs(s.th, t), o)
  {
    hide Lined, Serves, Lent, Counted, Valid;
    assert t in s.th.calls && s.th.calls[t].Recv?;
    RunsKeeps(s.th, t, -1, 0);
    LeaveLines(s.th, t, o);
  }

  lemma GiveUpKeepsInv(s: System, t: Tid, o: Order)
    requires Inv(s, o)
    ensures Inv(s.(th := GivenUp(s.th, t)), o) && Serves(s.th, GivenUp(s.th, t), o)
  {
    hide Lined, Serves, Lent, Counted, Valid;
    GivenUpKeeps(s.th, t, -1, 0);
    LeaveLines(s.th, t, o);
  }

  lemma StepKeepsInv(s: System, e: Event, o: Order)
    requires Inv(s, o) && Enabled(s, e)
    ensures var s' := Step(s, e, o); Inv(s', o) && Serves(s.th, s'.th, o)
  {
    hide Lined, Serves, AfterTake, AfterRelease, Inv;
    match e
    case TakeCall(t, time) => TakeKeepsInv(s, t, time, o);
    case Return(t) => ReturnKeepsInv(s, t, o);
    case Release(t) => ReleaseKeepsInv(s, t, o);
    case Expire(t) => ExpireKeepsInv(s, t, o);
    case GiveUp(t) => GiveUpKeepsInv(s, t, o);
  }

  lemma OwnerNotWaiting(m: Mutex)
    requires Owned(m)
    ensures m.owner.Some? ==> m.owner.value !in m.waiting
  {
  }

  /** The calls of the system are the sections of the object; balances and threads follow their outcomes, and nothing
      else touches the mutex but a timeout, which takes the thread off its list. */
  lemma StepIsSection(s: System, e: Event, o: Order)
    requires Inv(s, o) && Enabled(s, e)
    ensures var s' := Step(s, e, o);
            match e
            case TakeCall(t, time) =>
              var (m, r) := TakeSection(s.m, t, time, o);
              && s'.m == m && (r.Parked? <==> t in s'.th.calls)
              && Balance(s'.balance, t) - Balance(s.balance, t) == (if r == Done(Ok, None) then 1 else 0)
            case Release(t) =>
              var (m, r) := ReleaseSection(s.m, t, o);
              && s'.m == m && Balance(s'.balance, t) - Balance(s.balance, t) == (if r.Done? && r.status.Ok? then -1 else 0)
              && s'.th.recvAwake == s.th.recvAwake + if r.Done? && r.woken.Some? then {r.woken.value} else {}
            case Expire(t) =>
              && s'.m == s.m.(waiting := s'.m.waiting) && t !in s'.m.waiting
              && t in s'.th.failed && s'.th.failed[t] == Timeout
            case Return(_) => s'.m == s.m
            case GiveUp(_) => s'.m == s.m
  {
    hide Counted, Lent, Based, Urgent, Sorted, Owned, Distinct, Enqueue, Inherited, Restored;
    if e.Expire? { DroppedMembers(s.m.waiting, e.t); }
    OwnerNotWaiting(s.m);
  }

  ghost predicate Next(s: System, e: Event, s': System, o: Order)
  {
    Enabled(s, e) && s' == Step(s, e, o)
  }

  ghost predicate Run(ss: seq<System>, es: seq<Event>, o: Order)
  {
    && |ss| == |es| + 1 && ss[0] == Initial()
    && forall i, j :: 0 <= i && j == i + 1 && j < |ss| ==> Next(ss[i], es[i], ss[j], o)
  }

  /** In every interleaving of takes, releases, wake-ups and timeouts; and every step serves the threads in line. */
  lemma {:induction false} EveryRunKeepsInv(ss: seq<System>, es: seq<Event>, o: Order, n: nat)
    requires Run(ss, es, o) && n < |ss|
    ensures Inv(ss[n], o) && (n > 0 ==> Serves(ss[n - 1].th, ss[n].th, o))
  {
    hide Serves, Lined;
    LinedAtFirst<()>(o);
    if n > 0 {
      EveryRunKeepsInv(ss, es, o, n - 1);
      assert Next(ss[n - 1], es[n - 1], ss[n], o);
      StepKeepsInv(ss[n - 1], es[n - 1], o);
    }
  }

  /** Thread 1 is less urgent than the others. */
  function FifoOrder(): Order
  {
    Order(FIFO, t => if t == 1 then 5 else 3)
  }

  lemma FifoUrgent(m: Mutex, m': Mutex)
    requires m == Mutex(0, Some(0), 3, 1, [1, 2], map[]) && m' == ReleaseSection(m, 0, FifoOrder()).0
    ensures Urgent(m, FifoOrder()) && !Urgent(m', FifoOrder())
  {
    assert m'.owner == Some(1) && 2 in m'.waiting;
  }

  lemma FifoTakes(m: Mutex, t: Tid, o: Order)
    requires o.flag.FIFO? && m.owner != Some(t)
    ensures m == Fresh() ==> TakeSection(m, t, 0, o) == (Mutex(0, Some(t), o.prio(t), 1, [], map[]), Done(Ok, None))
    ensures m.value == 0 && m.owner.Some? && Current(m.current, m.owner.value, o) <= Current(m.current, t, o) ==>
              TakeSection(m, t, -1, o) == (m.(waiting := m.waiting + [t]), Parked)
  {
    assert m.waiting[..|m.waiting|] + [t] + m.waiting[|m.waiting|..] == m.waiting + [t];
  }

  /** A take of the free mutex, and one that waits for it without lending its priority. */
  lemma FifoSteps(s: System, t: Tid, o: Order)
    requires o.flag.FIFO? && s.m.owner != Some(t) && Idle(s.th, t)
    ensures s.m == Fresh() ==>
              AfterTake(s, t, 0, o).m == Mutex(0, Some(t), o.prio(t), 1, [], map[]) && AfterTake(s, t, 0, o).th == s.th
    ensures s.m.value == 0 && s.m.owner.Some? && Current(s.m.current, s.m.owner.value, o) <= Current(s.m.current, t, o) ==>
              var s' := AfterTake(s, t, -1, o);
              s'.m == s.m.(waiting := s.m.waiting + [t]) && forall u :: u != t && Idle(s.th, u) ==> Idle(s'.th, u)
  {
    hide TakeSection;
    FifoTakes(s.m, t, o);
  }

  lemma ReleaseStep(s: System, t: Tid, o: Order)
    ensures AfterRelease(s, t, o).m == ReleaseSection(s.m, t, o).0
  {
  }

  lemma RunOfFour(ss: seq<System>, es: seq<Event>, o: Order)
    requires |ss| == 5 && |es| == 4 && ss[0] == Initial()
    requires Next(ss[0], es[0], ss[1], o) && Next(ss[1], es[1], ss[2], o)
    requires Next(ss[2], es[2], ss[3], o) && Next(ss[3], es[3], ss[4], o)
    ensures Run(ss, es, o)
  {
    hide Next;
  }

  /** Thread 0 takes the mutex, threads 1 and 2 wait. */
  lemma FifoFills() returns (s1: System, s2: System, s3: System)
    ensures Next(Initial(), TakeCall(0, 0), s1, FifoOrder()) && Next(s1, TakeCall(1, -1), s2, FifoOrder())
    ensures Next(s2, TakeCall(2, -1), s3, FifoOrder())
    ensures s3.m == Mutex(0, Some(0), 3, 1, [1, 2], map[]) && Idle(s3.th, 0)
  {
    hide AfterTake, AfterRelease;
    var o, s0 := FifoOrder(), Initial();
    FifoSteps(s0, 0, o);
    s1 := AfterTake(s0, 0, 0, o);
    FifoSteps(s1, 1, o);
    s2 := AfterTake(s1, 1, -1, o);
    FifoSteps(s2, 2, o);
    s3 := AfterTake(s2, 2, -1, o);
  }

  /** By arrival order the new owner need not be the most urgent: thread 0 takes a FIFO mutex, threads 1 and 2 wait, and
      the release passes it to thread 1. */
  lemma FifoHandOverFails()
    ensures exists ss: seq<System> :: |ss| == 5
              && Run(ss, [TakeCall(0, 0), TakeCall(1, -1), TakeCall(2, -1), Release(0)], FifoOrder())
              && Urgent(ss[3].m, FifoOrder()) && !Urgent(ss[4].m, FifoOrder())
  {
    hide AfterTake, AfterRelease, ReleaseSection, Urgent, Run, Idle, Initial;
    var o := FifoOrder();
    var s1, s2, s3 := FifoFills();
    var s4 := AfterRelease(s3, 0, o);
    ReleaseStep(s3, 0, o);
    FifoUrgent(s3.m, s4.m);
    RunOfFour([Initial(), s1, s2, s3, s4], [TakeCall(0, 0), TakeCall(1, -1), TakeCall(2, -1), Release(0)], o);
  }

  // ----- the object in memory -----

  /** struct rt_mutex, together with the threads' current priorities. */
  class MutexObject {
    const o: Order
    var value: nat
    var owner: Option<Tid>
    var original: nat
    var hold: nat
    var waiting: seq<Tid>
    var current: map<Tid, nat>

    ghost function Abs(): Mutex
      reads this
    {
      Mutex(value, owner, original, hold, waiting, current)
    }

    /** rt_mutex_init, while every thread runs at its own priority. */
    constructor (o: Order)
      ensures Valid(Abs(), o) && this.o == o && Abs() == Fresh()
    {
      this.o := o;
      value, owner, original, hold := 1, None, NO_PRIORITY, 0;
      waiting, current := [], map[];
    }

    /** The section of rt_mutex_take. */
    method TakeRound(t: Tid, time: int) returns (r: Outcome)
      requires Valid(Abs(), o) && t !in waiting
      modifies this
      ensures Valid(Abs(), o) && (Abs(), r) == TakeSection(old(Abs()), t, time, o)
    {
      TakeKeepsValid(Abs(), t, time, o);
      if owner == Some(t) {
        if hold < UINT8_MAX {
          hold := hold + 1;
        } else {
          return Done(Full, None);
        }
      } else {
        if value > 0 {
          value := value - 1;
          owner := Some(t);
          original := Current(current, t, o);
          if hold < UINT8_MAX {
            hold := hold + 1;
          } else {
            assert false;
          }
        } else {
          if time == 0 {
            return Done(Timeout, None);
          }
          if Current(current, t, o) < Current(current, owner.value, o) {
            current := current[owner.value := Current(current, t, o)];
          }
          waiting := Enqueue(o.flag, waiting, t, Now(current, o).prio);
          return Parked;
        }
      }
      return Done(Ok, None);
    }

    /** The section of rt_mutex_release. */
    method ReleaseRound(t: Tid) returns (r: Outcome)
      requires Valid(Abs(), o)
      modifies this
      ensures Valid(Abs(), o) && (Abs(), r) == ReleaseSection(old(Abs()), t, o)
    {
      ReleaseKeepsValid(Abs(), t, o);
      if owner != Some(t) {
        return Done(Failed, None);
      }
      r := Done(Ok, None);
      hold := hold - 1;
      if hold == 0 {
        if original != Current(current, t, o) {
          current := current[t := original];
        }
        if waiting != [] {
          var next := waiting[0];
          owner := Some(next);
          original := Current(current, next, o);
          if hold < UINT8_MAX {
            hold := hold + 1;
          } else {
            assert false;
          }
          waiting := waiting[1..];
          r := Done(Ok, Some(next));
        } else {
          if value < UINT16_MAX {
            value := value + 1;
          } else {
            assert false;
          }
          owner := None;
          original := NO_PRIORITY;
        }
      }
    }
  }
}
