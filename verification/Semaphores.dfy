/** Semaphores of ipc.c.  A release hands its unit straight to the first parked thread, which returns from its
    take without looking at the value again. */
module Semaphores {
  import opened Kernel
  import opened WaitLists
  import opened Parking

  /** The object between two sections. */
  datatype Sem = Sem(value: nat, waiting: seq<Tid>)

  /** rt_sem_take from disabling to enabling interrupts. */
  function TakeSection(m: Sem, t: Tid, time: int, o: Order): (Sem, Outcome)
  {
    if m.value > 0 then (m.(value := m.value - 1), Done(Ok, None))
    else if time == 0 then (m, Done(Timeout, None))
    else (m.(waiting := Enqueue(o.flag, m.waiting, t, o.prio)), Parked)
  }

  /** rt_sem_release from disabling to enabling interrupts. */
  function ReleaseSection(m: Sem): (Sem, Outcome)
  {
    if m.waiting != [] then (m.(waiting := m.waiting[1..]), Done(Ok, Some(m.waiting[0])))
    else if m.value < UINT16_MAX then (m.(value := m.value + 1), Done(Ok, None))
    else (m, Done(Full, None))
  }

  /** A take gets a unit if there is one, and otherwise waits unless it must not. */
  lemma TakeAnswers(m: Sem, t: Tid, time: int, o: Order)
    ensures var r := TakeSection(m, t, time, o).1;
            && (r == Done(Ok, None) <==> m.value > 0)
            && (r == Done(Timeout, None) <==> m.value == 0 && time == 0)
            && (r == Parked <==> m.value == 0 && time != 0)
  {
  }

  /** A release wakes the first thread that waits; without one it fails if and only if the count is full, and otherwise
      undoes a take. */
  lemma ReleaseAnswers(m: Sem, t: Tid, time: int, o: Order)
    ensures var (m', r) := ReleaseSection(m);
            && (m.waiting != [] ==> r == Done(Ok, Some(m.waiting[0])) && m' == Sem(m.value, m.waiting[1..]))
            && (r == Done(Full, None) <==> m.waiting == [] && m.value >= UINT16_MAX)
    ensures m.waiting == [] && m.value <= UINT16_MAX && TakeSection(m, t, time, o).1 == Done(Ok, None) ==>
              ReleaseSection(TakeSection(m, t, time, o).0) == (m, Done(Ok, None))
  {
  }

  // ----- the object together with the threads that use it -----

  /** Since the last reset, which set the value to `base`, there were `released` releases that returned RT_EOK and
      `granted` units were given to takers.  Over the whole run, `grants` units were given and `taken` calls of
      rt_sem_take returned RT_EOK. */
  datatype System = System(value: nat, th: Threads<()>, base: nat, released: nat, granted: nat, grants: nat, taken: nat)

  datatype Event =
    | TakeCall(t: Tid, time: int)
    | Return(t: Tid)
    | Release
    | Expire(t: Tid)
    | GiveUp(t: Tid)
    | Reset(value: nat)

  function Initial(value: nat): System
  {
    System(value, Nobody(), value, 0, 0, 0, 0)
  }

  predicate Enabled(s: System, e: Event)
  {
    match e
    case TakeCall(t, _) => Idle(s.th, t)
    case Return(t) => t in s.th.recvAwake
    case Release => true
    case Expire(t) => CanExpire(s.th, t)
    case GiveUp(t) => t in s.th.failed
    case Reset(_) => true
  }

  /** What the object looks like in a state of the system. */
  function View(s: System): Sem
  {
    Sem(s.value, s.th.recvWait)
  }

  /** A section of rt_sem_take run by `t`; a unit is given when the call returns RT_EOK. */
  function AfterTake(s: System, t: Tid, time: int, o: Order): System
  {
    match TakeSection(View(s), t, time, o)
    case (m, Done(Ok, _)) =>
      s.(value := m.value, granted := s.granted + 1, grants := s.grants + 1, taken := s.taken + 1)
    case (m, Done(_, _)) => s.(value := m.value)
    case (m, Parked) => s.(value := m.value, th := ParkRecv(s.th, t, time, o))
  }

  /** A section of rt_sem_release; a unit comes in when the call returns RT_EOK, and is given when it wakes a thread. */
  function AfterRelease(s: System): System
  {
    match ReleaseSection(View(s))
    case (m, Done(Ok, Some(_))) =>
      s.(value := m.value, th := WakeRecv(s.th), released := s.released + 1, granted := s.granted + 1,
         grants := s.grants + 1)
    case (m, Done(Ok, None)) => s.(value := m.value, released := s.released + 1)
    case (m, _) => s.(value := m.value)
  }

  function Step(s: System, e: Event, o: Order): System
    requires Enabled(s, e)
  {
    match e
    case TakeCall(t, time) => AfterTake(s, t, time, o)
    case Return(t) => s.(th := Runs(s.th, t), taken := s.taken + 1)
    case Release => AfterRelease(s)
    case Expire(t) => s.(th := Expired(s.th, t))
    case GiveUp(t) => s.(th := GivenUp(s.th, t))
    case Reset(v) =>
      var value := v % (UINT16_MAX + 1);
      s.(value := value, th := AllFailed(s.th), base := value, released := 0, granted := 0)
  }

  /** The calls of the system are the sections of the object; units are counted and threads placed as their outcomes say,
      and nothing else touches the value. */
  lemma StepIsSection(s: System, e: Event, o: Order)
    requires Placed(s.th) && Enabled(s, e)
    ensures var s' := Step(s, e, o);
            match e
            case TakeCall(t, time) =>
              var (m, r) := TakeSection(View(s), t, time, o);
              && View(s') == m && (r.Parked? <==> t in s'.th.calls)
              && s'.taken - s.taken == (if r == Done(Ok, None) then 1 else 0)
            case Release =>
              var (m, r) := ReleaseSection(View(s));
              && View(s') == m && s'.released - s.released == (if r.Done? && r.status.Ok? then 1 else 0)
              && s'.th.recvAwake == s.th.recvAwake + if r.Done? && r.woken.Some? then {r.woken.value} else {}
            case Return(t) => View(s') == View(s) && s'.taken == s.taken + 1 && Idle(s'.th, t)
            case Expire(t) => s'.value == s.value && t !in s'.th.recvWait && t in s'.th.failed && s'.th.failed[t] == Timeout
            case GiveUp(_) => View(s') == View(s)
            case Reset(v) =>
              && View(s') == Sem(v % (UINT16_MAX + 1), [])
              && forall t :: t in s.th.recvWait ==> t in s'.th.failed && s'.th.failed[t] == Failed
  {
    if e.Return? { assert e.t in s.th.calls; }
    if e.Expire? { DroppedMembers(s.th.recvWait, e.t); }
  }

  // ----- what every run keeps -----

  /** Units are conserved: the value and the units given are what there was and what was released, and each
      unit given went to a call that returned RT_EOK or is about to. */
  ghost predicate Conserved(s: System)
  {
    && s.value + s.granted == s.base + s.released
    && s.grants == s.taken + |s.th.recvAwake|
    && s.value <= UINT16_MAX
  }

  /** Nobody waits while there are units, and the threads that wait are in line. */
  ghost predicate Waiting(s: System, o: Order)
  {
    && s.th.sendWait == [] && s.th.sendAwake == {}
    && (s.th.recvWait != [] ==> s.value == 0)
    && Lined(s.th, o)
  }

  ghost predicate Inv(s: System, o: Order)
  {
    Placed(s.th) && Conserved(s) && Waiting(s, o)
  }

  lemma TakeKeepsInv(s: System, t: Tid, time: int, o: Order)
    requires Inv(s, o) && Idle(s.th, t)
    ensures var s' := AfterTake(s, t, time, o); Inv(s', o) && Serves(s.th, s'.th, o)
  {
    hide Lined, Serves, Enqueue;
    NobodyWoken(s.th, s.th, o);
    if s.value == 0 && time != 0 {
      ParkRecvKeeps(s.th, t, time, o, 0);
      ParkLines(s.th, t, (), time, o);
    }
  }

  lemma ReleaseKeepsInv(s: System, o: Order)
    requires Inv(s, o)
    ensures var s' := AfterRelease(s); Inv(s', o) && Serves(s.th, s'.th, o)
  {
    hide Lined, Serves;
    NobodyWoken(s.th, s.th, o);
    WakeLines(s.th, o);
    if s.th.recvWait != [] {
      assert s.th.recvWait[0] in s.th.calls && s.th.recvWait[0] !in s.th.recvAwake;
      WakeRecvKeeps(s.th, -1, 0);
    }
  }

  lemma ReturnKeepsInv(s: System, t: Tid, o: Order)
    requires Inv(s, o) && t in s.th.recvAwake
    ensures Inv(s.(th := Runs(s.th, t), taken := s.taken + 1), o) && Serves(s.th, Runs(s.th, t), o)
  {
    hide Lined, Serves;
    LeaveLines(s.th, t, o);
    assert t in s.th.calls && s.th.calls[t].Recv?;
    RunsKeeps(s.th, t, -1, 0);
  }

  lemma StepKeepsInv(s: System, e: Event, o: Order)
    requires Inv(s, o) && Enabled(s, e)
    ensures var s' := Step(s, e, o); Inv(s', o) && Serves(s.th, s'.th, o)
  {
    hide Inv, Serves, AfterTake, AfterRelease;
    match e
    case TakeCall(t, time) => TakeKeepsInv(s, t, time, o);
    case Return(t) => ReturnKeepsInv(s, t, o);
    case Release => ReleaseKeepsInv(s, o);
    case Expire(t) => ErrorsKeepInv(s, t, 0, o);
    case GiveUp(t) => ErrorsKeepInv(s, t, 0, o);
    case Reset(v) => ErrorsKeepInv(s, 0, v % (UINT16_MAX + 1), o);
  }

  lemma ErrorsKeepInv(s: System, t: Tid, value: nat, o: Order)
    requires Inv(s, o) && value <= UINT16_MAX
    ensures CanExpire(s.th, t) ==> Inv(s.(th := Expired(s.th, t)), o) && Serves(s.th, Expired(s.th, t), o)
    ensures Inv(s.(th := GivenUp(s.th, t)), o) && Serves(s.th, GivenUp(s.th, t), o)
    ensures Inv(s.(value := value, th := AllFailed(s.th), base := value, released := 0, granted := 0), o)
    ensures Serves(s.th, AllFailed(s.th), o)
  {
    hide Lined, Serves, Placed;
    if CanExpire(s.th, t) { ExpiredKeeps(s.th, t, -1, 0); }
    GivenUpKeeps(s.th, t, -1, 0);
    AllFailedKeeps(s.th, 0, 0);
    LeaveLines(s.th, t, o);
  }

  ghost predicate Next(s: System, e: Event, s': System, o: Order)
  {
    Enabled(s, e) && s' == Step(s, e, o)
  }

  ghost predicate Run(ss: seq<System>, es: seq<Event>, value: nat, o: Order)
  {
    && |ss| == |es| + 1 && ss[0] == Initial(value) && value <= UINT16_MAX
    && forall i, j :: 0 <= i && j == i + 1 && j < |ss| ==> Next(ss[i], es[i], ss[j], o)
  }

  /** In every interleaving of takes, releases, wake-ups, timeouts and resets; and every step serves the threads in
      line. */
  lemma {:induction false} EveryRunKeepsInv(ss: seq<System>, es: seq<Event>, value: nat, o: Order, n: nat)
    requires Run(ss, es, value, o) && n < |ss|
    ensures Inv(ss[n], o) && (n > 0 ==> Serves(ss[n - 1].th, ss[n].th, o))
  {
    hide Serves, Lined;
    LinedAtFirst<()>(o);
    if n > 0 {
      EveryRunKeepsInv(ss, es, value, o, n - 1);
      assert Next(ss[n - 1], es[n - 1], ss[n], o);
      StepKeepsInv(ss[n - 1], es[n - 1], o);
    }
  }

  // ----- the object in memory -----

  /** struct rt_semaphore. */
  class Semaphore {
    const list: ThreadList
    var value: nat

    ghost predicate Valid()
      reads this, list, list.head, list.q
    {
      value <= UINT16_MAX && list.Valid()
    }

    ghost function Abs(): Sem
      reads this, list
    {
      Sem(value, Ids(list.q))
    }

    /** rt_sem_init. */
    constructor (value: nat, o: Order)
      requires value < 0x10000
      ensures Valid() && list.o == o && Abs() == Sem(value, []) && fresh(list) && fresh(list.head)
    {
      this.value := value;
      list := new ThreadList(o);
    }

    /** The section of rt_sem_take, run by the thread with this node. */
    method TakeRound(thread: Node, time: int) returns (r: Outcome)
      requires Valid() && thread !in [list.head] + list.q && thread.priority == list.o.prio(thread.id)
      modifies this, list, list.head, list.q, thread
      ensures Valid() && (Abs(), r) == TakeSection(old(Abs()), thread.id, time, list.o)
    {
      if value > 0 {
        value := value - 1;
        return Done(Ok, None);
      } else {
        if time == 0 {
          return Done(Timeout, None);
        } else {
          list.Park(thread);
          return Parked;
        }
      }
    }

    /** The section of rt_sem_release. */
    method ReleaseRound() returns (r: Outcome)
      requires Valid()
      modifies this, list, list.head, list.q
      ensures Valid() && (Abs(), r) == ReleaseSection(old(Abs()))
      ensures r.Done? && r.woken.Some? ==> value == old(value) && r.woken.value == old(list.q[0].id)
    {
      r := Done(Ok, None);
      var empty := list.Empty();
      if !empty {
        var t := list.Wake();
        r := Done(Ok, Some(t));
      } else {
        if value < UINT16_MAX {
          value := value + 1;
        } else {
          return Done(Full, None);
        }
      }
    }

    /** rt_sem_control(RT_IPC_CMD_RESET); `woken` are the threads whose error is set to -RT_ERROR. */
    method Reset(v: nat) returns (woken: seq<Tid>)
      requires Valid()
      modifies this, list, list.head, list.q
      ensures Valid() && Abs() == Sem(v % (UINT16_MAX + 1), []) && woken == old(Abs()).waiting
    {
      woken := list.WakeAll();
      value := v % (UINT16_MAX + 1);
    }
  }
}
