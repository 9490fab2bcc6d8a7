/** Mailboxes of ipc.c.  One step of the system is one section that runs with interrupts disabled. */
module Mailboxes {
  import opened Kernel
  import opened WaitLists
  import opened Parking

  /** The object between two sections: the stored mails, oldest first, and the two wait lists. */
  datatype Box = Box(size: nat, stored: seq<int>, recvWait: seq<Tid>, sendWait: seq<Tid>)

  /** rt_mb_send_wait from disabling to enabling interrupts, on the first and on every further round. */
  function SendSection(b: Box, t: Tid, value: int, timeout: int, o: Order): (Box, Outcome)
  {
    if |b.stored| == b.size then
      if timeout == 0 then (b, Done(Full, None))
      else (b.(sendWait := Enqueue(o.flag, b.sendWait, t, o.prio)), Parked)
    else
      var b' := b.(stored := b.stored + [value]);
      if b.recvWait == [] then (b', Done(Ok, None))
      else (b'.(recvWait := b.recvWait[1..]), Done(Ok, Some(b.recvWait[0])))
  }

  /** rt_mb_recv from disabling to enabling interrupts; the mail received is the oldest one. */
  function RecvSection(b: Box, t: Tid, timeout: int, o: Order): (Box, Outcome)
  {
    if b.stored == [] then
      if timeout == 0 then (b, Done(Timeout, None))
      else (b.(recvWait := Enqueue(o.flag, b.recvWait, t, o.prio)), Parked)
    else
      var b' := b.(stored := b.stored[1..]);
      if b.sendWait == [] then (b', Done(Ok, None))
      else (b'.(sendWait := b.sendWait[1..]), Done(Ok, Some(b.sendWait[0])))
  }

  /** A mail is stored behind the others if there is room, and the first receiver is woken for it; otherwise the sender
      waits unless it must not. */
  lemma SendAnswers(b: Box, t: Tid, value: int, timeout: int, o: Order)
    ensures var (b', r), full := SendSection(b, t, value, timeout, o), |b.stored| == b.size;
            && (r == Done(Full, None) <==> full && timeout == 0) && (r == Parked <==> full && timeout != 0)
            && b'.stored == b.stored + (if full then [] else [value])
            && (!full ==> r == Done(Ok, if b.recvWait == [] then None else Some(b.recvWait[0])))
  {
  }

  /** The oldest mail is taken if there is one, and the first sender is woken for its place. */
  lemma RecvAnswers(b: Box, t: Tid, timeout: int, o: Order)
    ensures var (b', r), empty := RecvSection(b, t, timeout, o), |b.stored| == 0;
            && (r == Done(Timeout, None) <==> empty && timeout == 0) && (r == Parked <==> empty && timeout != 0)
            && (if empty then b'.stored == b.stored else b.stored == [b.stored[0]] + b'.stored)
            && (!empty ==> r == Done(Ok, if b.sendWait == [] then None else Some(b.sendWait[0])))
  {
  }

  // ----- the object together with the threads that use it -----

  /** `accepted` and `received` are the mails that went in and out since the last reset. */
  datatype System = System(size: nat, stored: seq<int>, th: Threads<int>, accepted: seq<int>, received: seq<int>)

  datatype Event =
    | SendCall(t: Tid, value: int, timeout: int)
    | SendAgain(t: Tid, left: int)
    | RecvCall(t: Tid, timeout: int)
    | RecvAgain(t: Tid, left: int)
    | Expire(t: Tid)
    | GiveUp(t: Tid)
    | Reset

  function Initial(size: nat): System
  {
    System(size, [], Nobody(), [], [])
  }

  predicate Enabled(s: System, e: Event)
  {
    match e
    case SendCall(t, _, _) => Idle(s.th, t)
    case SendAgain(t, left) =>
      t in s.th.sendAwake && t in s.th.calls && s.th.calls[t].Send? && TimeLeft(s.th.calls[t].timeout, left)
    case RecvCall(t, _) => Idle(s.th, t)
    case RecvAgain(t, left) =>
      t in s.th.recvAwake && t in s.th.calls && s.th.calls[t].Recv? && TimeLeft(s.th.calls[t].timeout, left)
    case Expire(t) => CanExpire(s.th, t)
    case GiveUp(t) => t in s.th.failed
    case Reset => true
  }

  /** What the object looks like in a state of the system. */
  function View(s: System): Box
  {
    Box(s.size, s.stored, s.th.recvWait, s.th.sendWait)
  }

  /** A send section run by `t`, which is on no list; the mail is accepted when the call returns RT_EOK. */
  function AfterSend(s: System, t: Tid, value: int, timeout: int, o: Order): System
  {
    match SendSection(View(s), t, value, timeout, o)
    case (b, Done(Ok, _)) => s.(stored := b.stored, accepted := s.accepted + [value], th := WakeRecv(s.th))
    case (b, Done(_, _)) => s.(stored := b.stored)
    case (b, Parked) => s.(stored := b.stored, th := ParkSend(s.th, t, value, timeout, o))
  }

  /** A receive section run by `t`, which is on no list; the oldest mail is received when the call returns RT_EOK. */
  function AfterRecv(s: System, t: Tid, timeout: int, o: Order): System
  {
    match RecvSection(View(s), t, timeout, o)
    case (b, Done(Ok, _)) => s.(stored := b.stored, received := s.received + s.stored[..1], th := WakeSend(s.th))
    case (b, Done(_, _)) => s.(stored := b.stored)
    case (b, Parked) => s.(stored := b.stored, th := ParkRecv(s.th, t, timeout, o))
  }

  function Step(s: System, e: Event, o: Order): System
    requires Enabled(s, e)
  {
    match e
    case SendCall(t, value, timeout) => AfterSend(s, t, value, timeout, o)
    case SendAgain(t, left) => AfterSend(s.(th := Runs(s.th, t)), t, s.th.calls[t].msg, left, o)
    case RecvCall(t, timeout) => AfterRecv(s, t, timeout, o)
    case RecvAgain(t, left) => AfterRecv(s.(th := Runs(s.th, t)), t, left, o)
    case Expire(t) => s.(th := Expired(s.th, t))
    case GiveUp(t) => s.(th := GivenUp(s.th, t))
    case Reset => s.(stored := [], th := AllFailed(s.th), accepted := [], received := [])
  }

  /** A send of the system is a section of the object: mails count as accepted and threads are placed as its outcome
      says.  A woken sender sends the mail it came with. */
  lemma SendIsSection(s: System, e: Event, o: Order)
    requires Placed(s.th) && Enabled(s, e) && (e.SendCall? || e.SendAgain?)
    ensures var value := if e.SendCall? then e.value else s.th.calls[e.t].msg;
            var (b, r) := SendSection(View(s), e.t, value, if e.SendCall? then e.timeout else e.left, o);
            var s' := Step(s, e, o);
            && View(s') == b && (r.Parked? <==> e.t in s'.th.calls)
            && (r.Parked? ==> s'.th.calls[e.t] == Send(value, if e.SendCall? then e.timeout else e.left))
            && s'.accepted == s.accepted + (if r.Done? && r.status.Ok? then [value] else [])
            && s'.th.recvAwake == s.th.recvAwake + if r.Done? && r.woken.Some? then {r.woken.value} else {}
  {
  }

  /** So is a receive. */
  lemma RecvIsSection(s: System, e: Event, o: Order)
    requires Placed(s.th) && Enabled(s, e) && (e.RecvCall? || e.RecvAgain?)
    ensures var (b, r) := RecvSection(View(s), e.t, if e.RecvCall? then e.timeout else e.left, o);
            var s' := Step(s, e, o);
            && View(s') == b && (r.Parked? <==> e.t in s'.th.calls)
            && (r.Parked? ==> s'.th.calls[e.t] == Recv(if e.RecvCall? then e.timeout else e.left))
            && s'.received == s.received + (if r.Done? && r.status.Ok? then s.stored[..1] else [])
            && s'.th.sendAwake == s.th.sendAwake + if r.Done? && r.woken.Some? then {r.woken.value} else {}
  {
  }

  /** Nothing else touches the mails but a reset, which drops them and lets all who wait fail. */
  lemma OtherStepsKeepMails(s: System, e: Event, o: Order)
    requires Placed(s.th) && Enabled(s, e) && (e.Expire? || e.GiveUp? || e.Reset?)
    ensures var s' := Step(s, e, o);
            && (!e.Reset? ==> s'.stored == s.stored && s'.accepted == s.accepted && s'.received == s.received)
            && (e.Expire? ==> e.t !in s'.th.recvWait + s'.th.sendWait && e.t in s'.th.failed && s'.th.failed[e.t] == Timeout)
            && (e.Reset? ==> View(s') == Box(s.size, [], [], []))
            && (e.Reset? ==> forall t :: t in s.th.recvWait + s.th.sendWait ==> t in s'.th.failed && s'.th.failed[t] == Failed)
  {
    if e.Expire? {
      DroppedMembers(s.th.recvWait, e.t);
      DroppedMembers(s.th.sendWait, e.t);
    }
  }

  // ----- what every run keeps -----

  /** First in, first out: what was accepted since the last reset is what was received followed by what is stored. */
  ghost predicate Fifo(s: System)
  {
    |s.stored| <= s.size && s.accepted == s.received + s.stored
  }

  ghost predicate Inv(s: System)
  {
    Sound(s.th, |s.stored|, s.size - |s.stored|) && Fifo(s)
  }

  lemma SendCases(s: System, t: Tid, value: int, timeout: int, o: Order)
    ensures AfterSend(s, t, value, timeout, o)
         == if |s.stored| != s.size
            then s.(stored := s.stored + [value], accepted := s.accepted + [value], th := WakeRecv(s.th))
            else if timeout == 0 then s else s.(th := ParkSend(s.th, t, value, timeout, o))
  {
  }

  lemma RecvCases(s: System, t: Tid, timeout: int, o: Order)
    ensures AfterRecv(s, t, timeout, o)
         == if s.stored != []
            then s.(stored := s.stored[1..], received := s.received + s.stored[..1], th := WakeSend(s.th))
            else if timeout == 0 then s else s.(th := ParkRecv(s.th, t, timeout, o))
  {
  }

  lemma StoreKeepsInv(s: System, value: int)
    requires Sound(s.th, |s.stored|, s.size - |s.stored| - 1) && Fifo(s) && |s.stored| != s.size
    ensures Inv(s.(stored := s.stored + [value], accepted := s.accepted + [value], th := WakeRecv(s.th)))
  {
    WakeRecvKeeps(s.th, |s.stored|, s.size - |s.stored| - 1);
    assert s.accepted + [value] == s.received + (s.stored + [value]);
  }

  lemma FetchKeepsInv(s: System)
    requires Sound(s.th, |s.stored| - 1, s.size - |s.stored|) && Fifo(s) && s.stored != []
    ensures Inv(s.(stored := s.stored[1..], received := s.received + s.stored[..1], th := WakeSend(s.th)))
  {
    WakeSendKeeps(s.th, |s.stored| - 1, s.size - |s.stored|);
    assert s.received + s.stored == s.received + s.stored[..1] + s.stored[1..];
  }

  lemma SendKeepsInv(s: System, t: Tid, value: int, timeout: int, o: Order)
    requires Sound(s.th, |s.stored|, s.size - |s.stored| - 1) && Fifo(s) && Idle(s.th, t)
    ensures var s' := AfterSend(s, t, value, timeout, o); Inv(s') && s'.size == s.size
  {
    SendCases(s, t, value, timeout, o);
    if |s.stored| != s.size {
      StoreKeepsInv(s, value);
    } else {
      ParkSendKeeps(s.th, t, value, timeout, o, |s.stored|);
    }
  }

  lemma RecvKeepsInv(s: System, t: Tid, timeout: int, o: Order)
    requires Sound(s.th, |s.stored| - 1, s.size - |s.stored|) && Fifo(s) && Idle(s.th, t)
    ensures var s' := AfterRecv(s, t, timeout, o); Inv(s') && s'.size == s.size
  {
    RecvCases(s, t, timeout, o);
    if s.stored != [] {
      FetchKeepsInv(s);
    } else {
      ParkRecvKeeps(s.th, t, timeout, o, s.size);
    }
  }

  lemma CallKeepsInv(s: System, t: Tid, value: int, timeout: int, o: Order)
    requires Inv(s) && Idle(s.th, t)
    ensures var s' := AfterSend(s, t, value, timeout, o); Inv(s') && s'.size == s.size
    ensures var s' := AfterRecv(s, t, timeout, o); Inv(s') && s'.size == s.size
  {
    hide Sound, Fifo, AfterSend, AfterRecv;
    Weaker(s.th, |s.stored|, s.size - |s.stored|);
    SendKeepsInv(s, t, value, timeout, o);
    RecvKeepsInv(s, t, timeout, o);
  }

  /** A woken thread runs again. */
  lemma AgainKeepsInv(s: System, t: Tid, left: int, o: Order)
    requires Inv(s) && t in s.th.calls
    requires if s.th.calls[t].Send? then t in s.th.sendAwake else t in s.th.recvAwake
    ensures var s' := s.(th := Runs(s.th, t));
            var s'' := if s.th.calls[t].Send? then AfterSend(s', t, s.th.calls[t].msg, left, o)
                       else AfterRecv(s', t, left, o);
            Inv(s'') && s''.size == s.size
  {
    hide Sound, AfterSend, AfterRecv;
    var s' := s.(th := Runs(s.th, t));
    RunsKeeps(s.th, t, |s.stored|, s.size - |s.stored|);
    if s.th.calls[t].Send? {
      SendKeepsInv(s', t, s.th.calls[t].msg, left, o);
    } else {
      RecvKeepsInv(s', t, left, o);
    }
  }

  lemma ErrorsKeepInv(s: System, t: Tid)
    requires Inv(s)
    ensures t in s.th.recvWait || t in s.th.sendWait ==> Inv(s.(th := Expired(s.th, t)))
    ensures Inv(s.(th := GivenUp(s.th, t)))
    ensures Inv(s.(stored := [], th := AllFailed(s.th), accepted := [], received := []))
  {
    var items, room := |s.stored|, s.size - |s.stored|;
    if t in s.th.recvWait || t in s.th.sendWait { ExpiredKeeps(s.th, t, items, room); }
    GivenUpKeeps(s.th, t, items, room);
    AllFailedKeeps(s.th, 0, s.size);
  }

  lemma StepKeepsInv(s: System, e: Event, o: Order)
    requires Inv(s) && Enabled(s, e)
    ensures var s' := Step(s, e, o); Inv(s') && s'.size == s.size
  {
    hide Inv, AfterSend, AfterRecv;
    match e
    case SendCall(t, value, timeout) => CallKeepsInv(s, t, value, timeout, o);
    case SendAgain(t, left) => AgainKeepsInv(s, t, left, o);
    case RecvCall(t, timeout) => CallKeepsInv(s, t, 0, timeout, o);
    case RecvAgain(t, left) => AgainKeepsInv(s, t, left, o);
    case Expire(t) => ErrorsKeepInv(s, t);
    case GiveUp(t) => ErrorsKeepInv(s, t);
    case Reset => ErrorsKeepInv(s, 0);
  }

  lemma InitialKeeps(size: nat)
    ensures Inv(Initial(size)) && Initial(size).size == size
  {
  }

  ghost predicate Next(s: System, e: Event, s': System, o: Order)
  {
    Enabled(s, e) && s' == Step(s, e, o)
  }

  ghost predicate Run(ss: seq<System>, es: seq<Event>, size: nat, o: Order)
  {
    && |ss| == |es| + 1 && ss[0] == Initial(size)
    && forall i, j :: 0 <= i && j == i + 1 && j < |ss| ==> Next(ss[i], es[i], ss[j], o)
  }

  /** In every interleaving of calls, wake-ups, timeouts and resets. */
  lemma {:induction false} EveryRunKeepsInv(ss: seq<System>, es: seq<Event>, size: nat, o: Order, n: nat)
    requires Run(ss, es, size, o) && n < |ss|
    ensures Inv(ss[n]) && ss[n].size == size
  {
    hide Inv, Enabled, Step, Initial;
    if n == 0 {
      InitialKeeps(size);
    } else {
      EveryRunKeepsInv(ss, es, size, o, n - 1);
      assert Next(ss[n - 1], es[n - 1], ss[n], o);
      StepKeepsInv(ss[n - 1], es[n - 1], o);
    }
  }

  // ----- whose turn it is -----

  lemma SendLines(s: System, t: Tid, value: int, timeout: int, o: Order)
    requires Placed(s.th) && Lined(s.th, o) && Idle(s.th, t)
    ensures var s' := AfterSend(s, t, value, timeout, o); Lined(s'.th, o) && Serves(s.th, s'.th, o)
    ensures var s' := AfterRecv(s, t, timeout, o); Lined(s'.th, o) && Serves(s.th, s'.th, o)
    ensures t !in AfterSend(s, t, value, timeout, o).th.recvAwake && t !in AfterSend(s, t, value, timeout, o).th.sendAwake
    ensures t !in AfterRecv(s, t, timeout, o).th.recvAwake && t !in AfterRecv(s, t, timeout, o).th.sendAwake
  {
    hide Lined, Serves, Enqueue;
    SendCases(s, t, value, timeout, o);
    RecvCases(s, t, timeout, o);
    NobodyWoken(s.th, s.th, o);
    WakeLines(s.th, o);
    ParkLines(s.th, t, value, timeout, o);
  }

  /** Every step keeps the wait lists in line and serves the thread whose turn it is. */
  lemma StepLines(s: System, e: Event, o: Order)
    requires Inv(s) && Lined(s.th, o) && Enabled(s, e)
    ensures var s' := Step(s, e, o); Lined(s'.th, o) && Serves(s.th, s'.th, o)
  {
    hide Lined, Serves, AfterSend, AfterRecv, Fifo;
    match e
    case SendCall(t, value, timeout) => SendLines(s, t, value, timeout, o);
    case RecvCall(t, timeout) => SendLines(s, t, 0, timeout, o);
    case SendAgain(t, left) => AgainLines(s, t, s.th.calls[t].msg, left, o);
    case RecvAgain(t, left) => AgainLines(s, t, 0, left, o);
    case Expire(t) => LeaveLines(s.th, t, o);
    case GiveUp(t) => LeaveLines(s.th, t, o);
    case Reset => LeaveLines(s.th, 0, o);
  }

  lemma AgainLines(s: System, t: Tid, value: int, left: int, o: Order)
    requires Inv(s) && Lined(s.th, o) && t in s.th.calls
    requires if s.th.calls[t].Send? then t in s.th.sendAwake else t in s.th.recvAwake
    ensures var s' := AfterSend(s.(th := Runs(s.th, t)), t, value, left, o); Lined(s'.th, o) && Serves(s.th, s'.th, o)
    ensures var s' := AfterRecv(s.(th := Runs(s.th, t)), t, left, o); Lined(s'.th, o) && Serves(s.th, s'.th, o)
  {
    hide Lined, Serves, AfterSend, AfterRecv, Fifo;
    var s' := s.(th := Runs(s.th, t));
    RunsKeeps(s.th, t, |s.stored|, s.size - |s.stored|);
    LeaveLines(s.th, t, o);
    SendLines(s', t, value, left, o);
    RunsThenServes(s.th, t, AfterSend(s', t, value, left, o).th, o);
    RunsThenServes(s.th, t, AfterRecv(s', t, left, o).th, o);
  }

  lemma {:induction false} EveryRunLines(ss: seq<System>, es: seq<Event>, size: nat, o: Order, n: nat)
    requires Run(ss, es, size, o) && n < |ss|
    ensures Lined(ss[n].th, o) && (n > 0 ==> Serves(ss[n - 1].th, ss[n].th, o))
  {
    hide Inv, Enabled, Step, Lined, Serves;
    LinedAtFirst<int>(o);
    if n > 0 {
      EveryRunLines(ss, es, size, o, n - 1);
      EveryRunKeepsInv(ss, es, size, o, n - 1);
      assert Next(ss[n - 1], es[n - 1], ss[n], o);
      StepLines(ss[n - 1], es[n - 1], o);
    }
  }

  // ----- the calls alone tell what is in the box -----

  /** A bounded queue of mails as the callers imagine it: what each sender last came with, the mails inside, and those
      received since the last reset. */
  datatype Ledger = Ledger(offers: map<Tid, int>, stored: seq<int>, received: seq<int>)

  function Offered(b: Ledger, t: Tid, size: nat): Ledger
  {
    if t in b.offers && |b.stored| < size then b.(stored := b.stored + [b.offers[t]]) else b
  }

  function Fetched(b: Ledger): Ledger
  {
    if b.stored == [] then b else b.(stored := b.stored[1..], received := b.received + [b.stored[0]])
  }

  function Entered(b: Ledger, e: Event, size: nat): Ledger
  {
    match e
    case SendCall(t, value, _) => Offered(b.(offers := b.offers[t := value]), t, size)
    case SendAgain(t, _) => Offered(b, t, size)
    case RecvCall(_, _) => Fetched(b)
    case RecvAgain(_, _) => Fetched(b)
    case Expire(_) => b
    case GiveUp(_) => b
    case Reset => b.(stored := [], received := [])
  }

  /** What a sequence of calls and wake-ups comes to. */
  function Told(es: seq<Event>, size: nat): Ledger
  {
    if es == [] then Ledger(map[], [], []) else Entered(Told(es[..|es| - 1], size), es[|es| - 1], size)
  }

  ghost predicate Agrees(s: System, b: Ledger)
  {
    && s.stored == b.stored && s.received == b.received
    && forall t :: t in s.th.calls && s.th.calls[t].Send? ==> t in b.offers && b.offers[t] == s.th.calls[t].msg
  }

  lemma OfferAgrees(s: System, b: Ledger, t: Tid, value: int, timeout: int, o: Order)
    requires Agrees(s, b) && Fifo(s) && t in b.offers && b.offers[t] == value
    ensures Agrees(AfterSend(s, t, value, timeout, o), Offered(b, t, s.size))
  {
    SendCases(s, t, value, timeout, o);
  }

  lemma FetchAgrees(s: System, b: Ledger, t: Tid, timeout: int, o: Order)
    requires Agrees(s, b) && Idle(s.th, t)
    ensures Agrees(AfterRecv(s, t, timeout, o), Fetched(b))
  {
    RecvCases(s, t, timeout, o);
    assert s.stored != [] ==> s.stored[..1] == [s.stored[0]];
  }

  lemma StepAgrees(s: System, b: Ledger, e: Event, o: Order)
    requires Inv(s) && Agrees(s, b) && Enabled(s, e)
    ensures Agrees(Step(s, e, o), Entered(b, e, s.size))
  {
    hide AfterSend, AfterRecv, Offered, Fetched, Sound;
    match e
    case SendCall(t, value, timeout) => OfferAgrees(s, b.(offers := b.offers[t := value]), t, value, timeout, o);
    case SendAgain(t, left) => OfferAgrees(s.(th := Runs(s.th, t)), b, t, s.th.calls[t].msg, left, o);
    case RecvCall(t, timeout) => FetchAgrees(s, b, t, timeout, o);
    case RecvAgain(t, left) => RecvAgainAgrees(s, b, t, left, o);
    case Expire(t) =>
    case GiveUp(t) =>
    case Reset =>
  }

  lemma RecvAgainAgrees(s: System, b: Ledger, t: Tid, left: int, o: Order)
    requires Inv(s) && Agrees(s, b) && t in s.th.calls && s.th.calls[t].Recv? && t in s.th.recvAwake
    ensures Agrees(AfterRecv(s.(th := Runs(s.th, t)), t, left, o), Fetched(b))
  {
    RunsKeeps(s.th, t, |s.stored|, s.size - |s.stored|);
    FetchAgrees(s.(th := Runs(s.th, t)), b, t, left, o);
  }

  /** In every interleaving the mailbox is that queue: the mails stored and received are those that the calls alone
      tell, whatever the priorities. */
  lemma {:induction false} EveryRunIsQueue(ss: seq<System>, es: seq<Event>, size: nat, o: Order, n: nat)
    requires Run(ss, es, size, o) && n < |ss|
    ensures Agrees(ss[n], Told(es[..n], size))
  {
    hide Inv, Enabled, Step, Entered;
    if n > 0 {
      EveryRunIsQueue(ss, es, size, o, n - 1);
      EveryRunKeepsInv(ss, es, size, o, n - 1);
      assert Next(ss[n - 1], es[n - 1], ss[n], o);
      StepAgrees(ss[n - 1], Told(es[..n - 1], size), es[n - 1], o);
      assert es[..n][..n - 1] == es[..n - 1];
    }
  }

  // ----- the object in memory -----

  /** Position `i` of a ring of `size` slots, for a position that is less than two rounds on. */
  function Wrap(i: nat, size: nat): nat
  {
    if i < size then i else i - size
  }

  /** struct rt_mailbox: a ring of words with two offsets and a count. */
  class Mailbox {
    const size: nat
    const pool: array<int>
    const o: Order
    var entry: nat
    var inOffset: nat
    var outOffset: nat
    var recvWait: seq<Tid>
    var sendWait: seq<Tid>

    ghost var stored: seq<int>    // the mails in the ring, oldest first

    ghost predicate Valid()
      reads this, pool
    {
      && size <= UINT16_MAX && size <= pool.Length && entry <= size
      && (if size == 0 then inOffset == outOffset == 0
          else outOffset < size && inOffset == Wrap(outOffset + entry, size))
      && |stored| == entry
      && (forall i :: 0 <= i < entry ==> stored[i] == pool[Wrap(outOffset + i, size)])
    }

    ghost function Abs(): Box
      reads this
    {
      Box(size, stored, recvWait, sendWait)
    }

    /** rt_mb_init; the size field has 16 bits. */
    constructor (pool: array<int>, size: nat, o: Order)
      requires size % (UINT16_MAX + 1) <= pool.Length
      ensures Valid() && this.o == o && this.pool == pool && Abs() == Box(size % (UINT16_MAX + 1), [], [], [])
    {
      this.pool, this.size, this.o := pool, size % (UINT16_MAX + 1), o;
      entry, inOffset, outOffset := 0, 0, 0;
      recvWait, sendWait := [], [];
      stored := [];
    }

    /** Put a mail into the ring.  The count cannot overflow, because a ring has no more than 0xFFFF slots. */
    method Store(value: int)
      requires Valid() && entry < size
      modifies this`entry, this`inOffset, this`stored, pool
      ensures Valid() && stored == old(stored) + [value]
    {
      pool[inOffset] := value;
      inOffset := inOffset + 1;
      if inOffset >= size { inOffset := 0; }
      if entry < UINT16_MAX {
        entry := entry + 1;
      } else {
        assert false;
      }
      stored := stored + [value];
    }

    /** Take the oldest mail out of the ring. */
    method Fetch() returns (value: int)
      requires Valid() && entry > 0
      modifies this`entry, this`outOffset, this`stored
      ensures Valid() && value == old(stored)[0] && stored == old(stored)[1..]
    {
      value := pool[outOffset];
      outOffset := outOffset + 1;
      if outOffset >= size { outOffset := 0; }
      if entry > 0 { entry := entry - 1; }
      stored := stored[1..];
    }

    /** One section of rt_mb_send_wait. */
    method SendRound(t: Tid, value: int, timeout: int) returns (r: Outcome)
      requires Valid()
      modifies this, pool
      ensures Valid() && (Abs(), r) == SendSection(old(Abs()), t, value, timeout, o)
    {
      if entry == size {
        if timeout == 0 {
          return Done(Full, None);
        }
        sendWait := Enqueue(o.flag, sendWait, t, o.prio);
        return Parked;
      }
      Store(value);
      if recvWait != [] {
        var first := recvWait[0];
        recvWait := recvWait[1..];
        return Done(Ok, Some(first));
      }
      return Done(Ok, None);
    }

    /** One section of rt_mb_recv; `value` is meaningful when the call returns RT_EOK. */
    method RecvRound(t: Tid, timeout: int) returns (r: Outcome, value: int)
      requires Valid()
      modifies this
      ensures Valid() && (Abs(), r) == RecvSection(old(Abs()), t, timeout, o)
      ensures r.Done? && r.status.Ok? ==> old(stored) != [] && value == old(stored)[0]
    {
      value := 0;
      if entry == 0 {
        if timeout == 0 {
          return Done(Timeout, None), value;
        }
        recvWait := Enqueue(o.flag, recvWait, t, o.prio);
        return Parked, value;
      }
      value := Fetch();
      if sendWait != [] {
        var first := sendWait[0];
        sendWait := sendWait[1..];
        return Done(Ok, Some(first)), value;
      }
      return Done(Ok, None), value;
    }

    /** rt_mb_control(RT_IPC_CMD_RESET); `woken` are the threads whose error is set to -RT_ERROR. */
    method Reset() returns (woken: seq<Tid>)
      requires Valid()
      modifies this
      ensures Valid() && Abs() == Box(size, [], [], [])
      ensures woken == old(recvWait + sendWait)
    {
      woken := [];
      while recvWait != []
        invariant Valid() && woken + recvWait == old(recvWait) && sendWait == old(sendWait)
        decreases |recvWait|
      {
        woken := woken + [recvWait[0]];
        recvWait := recvWait[1..];
      }
      while sendWait != []
        invariant Valid() && woken + sendWait == old(recvWait + sendWait) && recvWait == []
        decreases |sendWait|
      {
        woken := woken + [sendWait[0]];
        sendWait := sendWait[1..];
      }
      entry, inOffset, outOffset := 0, 0, 0;
      stored := [];
    }
  }
}
