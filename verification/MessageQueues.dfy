/** Message queues of ipc.c.  A send or receive has two sections with interrupts disabled; between them the
    thread holds a node of its own and copies the message. */
module MessageQueues {
  import opened Rings
  import opened Kernel
  import opened WaitLists
  import opened Parking
  import opened Slots
  import opened Payloads
  import opened Words

  // ----- the nodes of the pool -----

  /** The free list and the queue, front first, and the nodes in the hands of threads. */
  datatype Nodes = Nodes(max: nat, free: seq<int>, queue: seq<int>, held: map<int, Tid>)

  /** Every node of the pool is free, queued or in one thread's hands, and only one of these. */
  ghost predicate Partition(nd: Nodes)
  {
    && Distinct(nd.free) && Distinct(nd.queue)
    && (forall n :: n in nd.free ==> n !in nd.queue && n !in nd.held)
    && (forall n :: n in nd.queue ==> n !in nd.held)
    && (forall n :: n in nd.free || n in nd.queue || n in nd.held <==> 0 <= n < nd.max)
    && |nd.free| + |nd.queue| + |nd.held| == nd.max
  }

  function Fresh(max: nat): Nodes
  {
    Nodes(max, seq(max, i requires 0 <= i < max => max - 1 - i), [], map[])
  }

  function TakeFree(nd: Nodes, t: Tid): Nodes
    requires nd.free != []
  {
    nd.(free := nd.free[1..], held := nd.held[nd.free[0] := t])
  }

  function TakeFront(nd: Nodes, t: Tid): Nodes
    requires nd.queue != []
  {
    nd.(queue := nd.queue[1..], held := nd.held[nd.queue[0] := t])
  }

  function Link(nd: Nodes, n: int, urgent: bool): Nodes
  {
    nd.(queue := if urgent then [n] + nd.queue else nd.queue + [n], held := nd.held - {n})
  }

  function GiveFree(nd: Nodes, n: int): Nodes
  {
    nd.(free := [n] + nd.free, held := nd.held - {n})
  }

  /** The reset moves the front node to the free list until the queue is empty. */
  function Drained(nd: Nodes): Nodes
    decreases |nd.queue|
  {
    if nd.queue == [] then nd else Drained(nd.(free := [nd.queue[0]] + nd.free, queue := nd.queue[1..]))
  }

  lemma FreshIsPartition(max: nat)
    ensures Partition(Fresh(max))
  {
    var nd := Fresh(max);
    forall n | 0 <= n < max ensures n in nd.free {
      assert nd.free[max - 1 - n] == n;
    }
  }

  lemma TakeFreeKeeps(nd: Nodes, t: Tid)
    requires Partition(nd) && nd.free != []
    ensures Partition(TakeFree(nd, t))
  {
    HeadTail(nd.free);
  }

  lemma TakeFrontKeeps(nd: Nodes, t: Tid)
    requires Partition(nd) && nd.queue != []
    ensures Partition(TakeFront(nd, t))
  {
    HeadTail(nd.queue);
  }

  lemma RemoveOne<K, V>(m: map<K, V>, k: K)
    requires k in m
    ensures |m - {k}| == |m| - 1
  {
    assert (m - {k}).Keys == m.Keys - {k};
  }

  lemma LinkKeeps(nd: Nodes, n: int, urgent: bool)
    requires Partition(nd) && n in nd.held
    ensures Partition(Link(nd, n, urgent))
  {
    DistinctEnds(nd.queue, n);
    RemoveOne(nd.held, n);
  }

  lemma GiveFreeKeeps(nd: Nodes, n: int)
    requires Partition(nd) && n in nd.held
    ensures Partition(GiveFree(nd, n))
  {
    DistinctEnds(nd.free, n);
    RemoveOne(nd.held, n);
  }

  lemma MoveKeeps(nd: Nodes)
    requires Partition(nd) && nd.queue != []
    ensures Partition(nd.(free := [nd.queue[0]] + nd.free, queue := nd.queue[1..]))
  {
    HeadTail(nd.queue);
    DistinctEnds(nd.free, nd.queue[0]);
  }

  lemma {:induction false} DrainedKeeps(nd: Nodes)
    requires Partition(nd)
    ensures Partition(Drained(nd)) && Drained(nd).queue == []
    ensures Drained(nd).held == nd.held && Drained(nd).max == nd.max
    decreases |nd.queue|
  {
    if nd.queue != [] {
      MoveKeeps(nd);
      DrainedKeeps(nd.(free := [nd.queue[0]] + nd.free, queue := nd.queue[1..]));
    }
  }

  // ----- the sections -----

  /** The object between two sections. */
  datatype Queue = Queue(nodes: Nodes, recvWait: seq<Tid>, sendWait: seq<Tid>)

  /** First section of rt_mq_send_wait, and with timeout 0 of rt_mq_urgent: get the first free node. */
  function TakeFreeSection(q: Queue, t: Tid, timeout: int, o: Order): (Queue, Outcome)
  {
    if q.nodes.free != [] then (q.(nodes := TakeFree(q.nodes, t)), Done(Ok, None))
    else if timeout == 0 then (q, Done(Full, None))
    else (q.(sendWait := Enqueue(o.flag, q.sendWait, t, o.prio)), Parked)
  }

  /** Second section of a send: link the node and wake a receiver. */
  function LinkSection(q: Queue, n: int, urgent: bool): (Queue, Outcome)
  {
    var q' := q.(nodes := Link(q.nodes, n, urgent));
    if q.recvWait == [] then (q', Done(Ok, None))
    else (q'.(recvWait := q.recvWait[1..]), Done(Ok, Some(q.recvWait[0])))
  }

  /** First section of rt_mq_recv: get the front node. */
  function TakeFrontSection(q: Queue, t: Tid, timeout: int, o: Order): (Queue, Outcome)
  {
    if q.nodes.queue != [] then (q.(nodes := TakeFront(q.nodes, t)), Done(Ok, None))
    else if timeout == 0 then (q, Done(Timeout, None))
    else (q.(recvWait := Enqueue(o.flag, q.recvWait, t, o.prio)), Parked)
  }

  /** Second section of rt_mq_recv: give the node back and wake a sender. */
  function GiveFreeSection(q: Queue, n: int): (Queue, Outcome)
  {
    var q' := q.(nodes := GiveFree(q.nodes, n));
    if q.sendWait == [] then (q', Done(Ok, None))
    else (q'.(sendWait := q.sendWait[1..]), Done(Ok, Some(q.sendWait[0])))
  }

  /** rt_mq_control(RT_IPC_CMD_RESET). */
  function ResetSection(q: Queue): Queue
  {
    Queue(Drained(q.nodes), [], [])
  }

  /** A send gets the first free node if there is one, and otherwise waits unless it must not. */
  lemma TakeFreeAnswers(q: Queue, t: Tid, timeout: int, o: Order)
    ensures var (q', r), none := TakeFreeSection(q, t, timeout, o), |q.nodes.free| == 0;
            && (r == Done(Full, None) <==> none && timeout == 0) && (r == Parked <==> none && timeout != 0)
            && (!none ==> r == Done(Ok, None) && q.nodes.free[0] in q'.nodes.held
                          && q.nodes.free == [q.nodes.free[0]] + q'.nodes.free)
  {
  }

  /** A receive gets the front node if there is one, and otherwise waits unless it must not. */
  lemma TakeFrontAnswers(q: Queue, t: Tid, timeout: int, o: Order)
    ensures var (q', r), none := TakeFrontSection(q, t, timeout, o), |q.nodes.queue| == 0;
            && (r == Done(Timeout, None) <==> none && timeout == 0) && (r == Parked <==> none && timeout != 0)
            && (!none ==> r == Done(Ok, None) && q.nodes.queue[0] in q'.nodes.held
                          && q.nodes.queue == [q.nodes.queue[0]] + q'.nodes.queue)
  {
  }

  // ----- the messages -----

  datatype Purpose = Back | Front | Out

  /** What a thread does with the node in its hands: `msg` is the message it sends, or the one that was at the
      front when it took the node; `copied` says that it is done copying. */
  datatype Job = Job(node: int, msg: Msg, purpose: Purpose, copied: bool)

  /** The nodes in the hands of threads are the nodes of their jobs. */
  ghost predicate Hands(held: map<int, Tid>, jobs: map<Tid, Job>)
  {
    && (forall t :: t in jobs ==> jobs[t].node in held && held[jobs[t].node] == t)
    && (forall n :: n in held ==> held[n] in jobs && jobs[held[n]].node == n)
  }

  /** Each node has room for `size` bytes. */
  ghost predicate Sized(max: nat, content: map<int, Msg>, size: nat)
  {
    forall n :: 0 <= n < max ==> n in content && |content[n]| == size
  }

  /** A shorter message leaves the rest of the node as it was. */
  ghost predicate Holds(content: map<int, Msg>, n: int, msg: Msg)
  {
    n in content && msg <= content[n]
  }

  /** The queued nodes hold the messages of `deque`. */
  ghost predicate QueueHolds(queue: seq<int>, content: map<int, Msg>, deque: seq<Msg>)
  {
    |deque| == |queue| && forall i :: 0 <= i < |queue| ==> Holds(content, queue[i], deque[i])
  }

  ghost predicate JobsHold(jobs: map<Tid, Job>, content: map<int, Msg>, size: nat)
  {
    forall t :: t in jobs ==>
      && |jobs[t].msg| <= size
      && (jobs[t].purpose.Out? || jobs[t].copied ==> Holds(content, jobs[t].node, jobs[t].msg))
  }

  /** Copying into a node that is in one's hands disturbs nobody. */
  lemma WrittenKeeps(nd: Nodes, jobs: map<Tid, Job>, content: map<int, Msg>, deque: seq<Msg>, size: nat, t: Tid)
    requires Partition(nd) && Hands(nd.held, jobs) && t in jobs
    requires Sized(nd.max, content, size) && QueueHolds(nd.queue, content, deque) && JobsHold(jobs, content, size)
    ensures var content' := Written(content, jobs[t].node, jobs[t].msg);
            && Sized(nd.max, content', size) && QueueHolds(nd.queue, content', deque)
            && JobsHold(jobs[t := jobs[t].(copied := true)], content', size)
  {
    assert jobs[t].node in nd.held;
  }

  // ----- the object together with the threads that use it -----

  /** A message as sent, and what the receiver got in a buffer of `room` bytes. */
  datatype Delivery = Delivery(msg: Msg, room: nat, buffer: Msg)

  /** `deque` is the sequence of messages that senders and receivers should see. */
  datatype System = System(size: nat, nodes: Nodes, content: map<int, Msg>, jobs: map<Tid, Job>, th: Threads<Msg>,
                           deque: seq<Msg>, delivered: seq<Delivery>)

  datatype Event =
    | SendCall(t: Tid, msg: Msg, timeout: int)
    | SendAgain(t: Tid, left: int)
    | UrgentCall(t: Tid, msg: Msg)
    | CopyIn(t: Tid)
    | LinkIt(t: Tid)
    | RecvCall(t: Tid, timeout: int)
    | RecvAgain(t: Tid, left: int)
    | CopyOut(t: Tid, room: nat)
    | FreeIt(t: Tid)
    | Expire(t: Tid)
    | GiveUp(t: Tid)
    | Reset

  predicate Free(s: System, t: Tid)
  {
    Idle(s.th, t) && t !in s.jobs
  }

  predicate Enabled(s: System, e: Event)
  {
    match e
    case SendCall(t, _, _) => Free(s, t)
    case SendAgain(t, left) =>
      t in s.th.sendAwake && t in s.th.calls && s.th.calls[t].Send? && TimeLeft(s.th.calls[t].timeout, left)
    case UrgentCall(t, _) => Free(s, t)
    case CopyIn(t) => t in s.jobs && !s.jobs[t].purpose.Out? && !s.jobs[t].copied
    case LinkIt(t) => t in s.jobs && !s.jobs[t].purpose.Out? && s.jobs[t].copied
    case RecvCall(t, _) => Free(s, t)
    case RecvAgain(t, left) =>
      t in s.th.recvAwake && t in s.th.calls && s.th.calls[t].Recv? && TimeLeft(s.th.calls[t].timeout, left)
    case CopyOut(t, _) => t in s.jobs && s.jobs[t].purpose.Out? && !s.jobs[t].copied
    case FreeIt(t) => t in s.jobs && s.jobs[t].purpose.Out? && s.jobs[t].copied
    case Expire(t) => CanExpire(s.th, t)
    case GiveUp(t) => t in s.th.failed
    case Reset => true
  }

  /** First section of a send: get a free node, or wait for one. */
  function AfterTakeFree(s: System, t: Tid, msg: Msg, timeout: int, purpose: Purpose, o: Order): System
  {
    if s.nodes.free == [] then
      if timeout == 0 then s else s.(th := ParkSend(s.th, t, msg, timeout, o))
    else s.(nodes := TakeFree(s.nodes, t), jobs := s.jobs[t := Job(s.nodes.free[0], msg, purpose, false)])
  }

  /** The copy between the sections of a send. */
  function AfterCopyIn(s: System, t: Tid): System
    requires t in s.jobs
  {
    var j := s.jobs[t];
    if j.node in s.content && |j.msg| <= |s.content[j.node]|
    then s.(content := Written(s.content, j.node, j.msg), jobs := s.jobs[t := j.(copied := true)])
    else s
  }

  /** Second section of a send: link the node and wake a receiver. */
  function AfterLink(s: System, t: Tid): System
    requires t in s.jobs
  {
    var j := s.jobs[t];
    s.(nodes := Link(s.nodes, j.node, j.purpose.Front?), jobs := s.jobs - {t}, th := WakeRecv(s.th),
       deque := if j.purpose.Front? then [j.msg] + s.deque else s.deque + [j.msg])
  }

  /** First section of a receive: get the front node, or wait for one. */
  function AfterTakeFront(s: System, t: Tid, timeout: int, o: Order): System
  {
    if s.nodes.queue == [] then
      if timeout == 0 then s else s.(th := ParkRecv(s.th, t, timeout, o))
    else if s.deque == [] then s
    else s.(nodes := TakeFront(s.nodes, t), jobs := s.jobs[t := Job(s.nodes.queue[0], s.deque[0], Out, false)],
            deque := s.deque[1..])
  }

  /** The copy between the sections of a receive. */
  function AfterCopyOut(s: System, t: Tid, room: nat): System
    requires t in s.jobs
  {
    var j := s.jobs[t];
    var n := if room > s.size then s.size else room;
    if j.node in s.content && n <= |s.content[j.node]|
    then s.(jobs := s.jobs[t := j.(copied := true)],
            delivered := s.delivered + [Delivery(j.msg, room, s.content[j.node][..n])])
    else s
  }

  /** Second section of a receive: give the node back and wake a sender. */
  function AfterFree(s: System, t: Tid): System
    requires t in s.jobs
  {
    s.(nodes := GiveFree(s.nodes, s.jobs[t].node), jobs := s.jobs - {t}, th := WakeSend(s.th))
  }

  /** Messages larger than a node are refused before the first section. */
  function Step(s: System, e: Event, o: Order): System
    requires Enabled(s, e)
  {
    match e
    case SendCall(t, msg, timeout) => if |msg| > s.size then s else AfterTakeFree(s, t, msg, timeout, Back, o)
    case SendAgain(t, left) => AfterTakeFree(s.(th := Runs(s.th, t)), t, s.th.calls[t].msg, left, Back, o)
    case UrgentCall(t, msg) => if |msg| > s.size then s else AfterTakeFree(s, t, msg, 0, Front, o)
    case CopyIn(t) => AfterCopyIn(s, t)
    case LinkIt(t) => AfterLink(s, t)
    case RecvCall(t, timeout) => AfterTakeFront(s, t, timeout, o)
    case RecvAgain(t, left) => AfterTakeFront(s.(th := Runs(s.th, t)), t, left, o)
    case CopyOut(t, room) => AfterCopyOut(s, t, room)
    case FreeIt(t) => AfterFree(s, t)
    case Expire(t) => s.(th := Expired(s.th, t))
    case GiveUp(t) => s.(th := GivenUp(s.th, t))
    case Reset => s.(nodes := Drained(s.nodes), th := AllFailed(s.th), deque := [])
  }

  /** What the object looks like in a state of the system. */
  function View(s: System): Queue
  {
    Queue(s.nodes, s.th.recvWait, s.th.sendWait)
  }

  // ----- what every run keeps -----

  /** A thread with a node in its hands is on no list, and what senders wait with fits a node. */
  ghost predicate Apart(th: Threads<Msg>, jobs: map<Tid, Job>, size: nat)
  {
    && jobs.Keys !! th.calls.Keys && jobs.Keys !! th.failed.Keys
    && (forall t :: t in th.calls && th.calls[t].Send? ==> |th.calls[t].msg| <= size)
  }

  ghost predicate Stored(s: System)
  {
    && Partition(s.nodes) && Hands(s.nodes.held, s.jobs)
    && Sized(s.nodes.max, s.content, s.size) && JobsHold(s.jobs, s.content, s.size)
    && QueueHolds(s.nodes.queue, s.content, s.deque)
  }

  /** A receiver gets the message it took, as much of it as its buffer holds. */
  ghost predicate Faithful(d: Delivery, size: nat)
  {
    && |d.buffer| == (if d.room > size then size else d.room)
    && forall k :: 0 <= k < |d.buffer| && k < |d.msg| ==> d.buffer[k] == d.msg[k]
  }

  ghost predicate Deliveries(s: System)
  {
    forall d :: d in s.delivered ==> Faithful(d, s.size)
  }

  ghost predicate Inv(s: System)
  {
    && Stored(s) && Deliveries(s) && Apart(s.th, s.jobs, s.size)
    && Sound(s.th, |s.nodes.queue|, |s.nodes.free|)
  }

  lemma TakeFreeStored(s: System, t: Tid, msg: Msg, purpose: Purpose, o: Order)
    requires Stored(s) && s.nodes.free != [] && t !in s.jobs && |msg| <= s.size && !purpose.Out?
    ensures Stored(AfterTakeFree(s, t, msg, 0, purpose, o))
  {
    TakeFreeKeeps(s.nodes, t);
  }

  lemma TakeFrontStored(s: System, t: Tid, o: Order)
    requires Stored(s) && s.nodes.queue != [] && t !in s.jobs
    ensures Stored(AfterTakeFront(s, t, 0, o))
  {
    TakeFrontKeeps(s.nodes, t);
    assert Holds(s.content, s.nodes.queue[0], s.deque[0]);
  }

  lemma LinkStored(s: System, t: Tid)
    requires Stored(s) && t in s.jobs && s.jobs[t].copied
    ensures Stored(AfterLink(s, t))
  {
    hide Partition, QueueHolds, Hands;
    var j := s.jobs[t];
    HandsLess(s.nodes.held, s.jobs, t);
    LinkKeeps(s.nodes, j.node, j.purpose.Front?);
    assert Holds(s.content, j.node, j.msg);
    QueueGrows(s.nodes.queue, s.content, s.deque, j.node, j.msg);
  }

  lemma HandsLess(held: map<int, Tid>, jobs: map<Tid, Job>, t: Tid)
    requires Hands(held, jobs) && t in jobs
    ensures jobs[t].node in held && Hands(held - {jobs[t].node}, jobs - {t})
  {
  }

  lemma QueueGrows(queue: seq<int>, content: map<int, Msg>, deque: seq<Msg>, n: int, msg: Msg)
    requires QueueHolds(queue, content, deque) && Holds(content, n, msg)
    ensures QueueHolds([n] + queue, content, [msg] + deque) && QueueHolds(queue + [n], content, deque + [msg])
  {
  }

  lemma FreeStored(s: System, t: Tid)
    requires Stored(s) && t in s.jobs
    ensures Stored(AfterFree(s, t))
  {
    hide Partition, QueueHolds, Hands;
    HandsLess(s.nodes.held, s.jobs, t);
    GiveFreeKeeps(s.nodes, s.jobs[t].node);
  }

  lemma SendSectionKeeps(s: System, t: Tid, msg: Msg, timeout: int, purpose: Purpose, o: Order)
    requires Stored(s) && Deliveries(s) && Apart(s.th, s.jobs, s.size) && Free(s, t)
    requires Sound(s.th, |s.nodes.queue|, |s.nodes.free| - 1) && |msg| <= s.size && !purpose.Out?
    ensures Inv(AfterTakeFree(s, t, msg, timeout, purpose, o))
  {
    hide Stored, Sound;
    if s.nodes.free == [] {
      SameStore(s, AfterTakeFree(s, t, msg, timeout, purpose, o));
      NoneToMiss(s.th, |s.nodes.queue|, 0);
      ParkSendKeeps(s.th, t, msg, timeout, o, |s.nodes.queue|);
    } else {
      TakeFreeStored(s, t, msg, purpose, o);
    }
  }

  lemma NothingQueued(s: System)
    requires Stored(s)
    ensures s.deque == [] <==> s.nodes.queue == []
  {
  }

  lemma RecvSectionKeeps(s: System, t: Tid, timeout: int, o: Order)
    requires Stored(s) && Deliveries(s) && Apart(s.th, s.jobs, s.size) && Free(s, t)
    requires Sound(s.th, |s.nodes.queue| - 1, |s.nodes.free|)
    ensures Inv(AfterTakeFront(s, t, timeout, o))
  {
    hide Stored, Sound;
    NothingQueued(s);
    if s.nodes.queue == [] {
      SameStore(s, AfterTakeFront(s, t, timeout, o));
      NoneToMiss(s.th, 0, |s.nodes.free|);
      ParkRecvKeeps(s.th, t, timeout, o, |s.nodes.free|);
    } else {
      TakeFrontStored(s, t, o);
    }
  }

  lemma CopyInKeeps(s: System, t: Tid)
    requires Inv(s) && t in s.jobs
    ensures var s' := AfterCopyIn(s, t); Inv(s') && t in s'.jobs && s'.jobs[t].copied
  {
    WrittenKeeps(s.nodes, s.jobs, s.content, s.deque, s.size, t);
  }

  lemma LinkKeepsInv(s: System, t: Tid)
    requires Inv(s) && t in s.jobs && s.jobs[t].copied
    ensures Inv(AfterLink(s, t))
  {
    hide Stored, Sound;
    LinkStored(s, t);
    WakeRecvKeeps(s.th, |s.nodes.queue|, |s.nodes.free|);
  }

  lemma CopyOutKeeps(s: System, t: Tid, room: nat)
    requires Inv(s) && t in s.jobs && s.jobs[t].purpose.Out?
    ensures var s' := AfterCopyOut(s, t, room); Inv(s') && t in s'.jobs && s'.jobs[t].copied
  {
    hide Partition, QueueHolds, Sound;
    assert Holds(s.content, s.jobs[t].node, s.jobs[t].msg);
    assert s.jobs[t].node in s.nodes.held;
    HeldInside(s.nodes, s.jobs[t].node);
  }

  lemma HeldInside(nd: Nodes, n: int)
    requires Partition(nd) && n in nd.held
    ensures 0 <= n < nd.max
  {
  }

  lemma FreeKeepsInv(s: System, t: Tid)
    requires Inv(s) && t in s.jobs
    ensures Inv(AfterFree(s, t))
  {
    hide Stored, Sound;
    FreeStored(s, t);
    WakeSendKeeps(s.th, |s.nodes.queue|, |s.nodes.free|);
  }

  lemma ErrorsKeepInv(s: System, e: Event, o: Order)
    requires Inv(s) && Enabled(s, e) && (e.Expire? || e.GiveUp? || e.Reset?)
    ensures Inv(Step(s, e, o))
  {
    var items, room := |s.nodes.queue|, |s.nodes.free|;
    match e
    case Expire(t) => ExpiredKeeps(s.th, t, items, room);
    case GiveUp(t) => GivenUpKeeps(s.th, t, items, room);
    case Reset =>
      DrainedKeeps(s.nodes);
      AllFailedKeeps(s.th, 0, |Drained(s.nodes).free|);
  }

  lemma CallKeepsInv(s: System, t: Tid, msg: Msg, timeout: int, purpose: Purpose, o: Order)
    requires Inv(s) && Free(s, t) && |msg| <= s.size && !purpose.Out?
    ensures Inv(AfterTakeFree(s, t, msg, timeout, purpose, o)) && Inv(AfterTakeFront(s, t, timeout, o))
  {
    hide Stored, Apart, Deliveries, Sound, AfterTakeFree, AfterTakeFront;
    Weaker(s.th, |s.nodes.queue|, |s.nodes.free|);
    SendSectionKeeps(s, t, msg, timeout, purpose, o);
    RecvSectionKeeps(s, t, timeout, o);
  }

  /** A woken thread runs again. */
  lemma AgainKeepsInv(s: System, t: Tid, left: int, o: Order)
    requires Inv(s) && t in s.th.calls
    requires if s.th.calls[t].Send? then t in s.th.sendAwake else t in s.th.recvAwake
    ensures var s' := s.(th := Runs(s.th, t));
            if s.th.calls[t].Send? then Inv(AfterTakeFree(s', t, s.th.calls[t].msg, left, Back, o))
            else Inv(AfterTakeFront(s', t, left, o))
  {
    hide Stored, Deliveries, Sound, AfterTakeFree, AfterTakeFront;
    var s' := s.(th := Runs(s.th, t));
    RunsKeeps(s.th, t, |s.nodes.queue|, |s.nodes.free|);
    SameStore(s, s');
    if s.th.calls[t].Send? {
      SendSectionKeeps(s', t, s.th.calls[t].msg, left, Back, o);
    } else {
      RecvSectionKeeps(s', t, left, o);
    }
  }

  lemma SameStore(s: System, s': System)
    requires Stored(s) && Deliveries(s) && s' == s.(th := s'.th)
    ensures Stored(s') && Deliveries(s')
  {
  }

  lemma StepKeepsInv(s: System, e: Event, o: Order)
    requires Inv(s) && Enabled(s, e)
    ensures Inv(Step(s, e, o))
  {
    hide Inv, AfterTakeFree, AfterTakeFront, AfterCopyIn, AfterCopyOut, AfterLink, AfterFree;
    match e
    case SendCall(t, msg, timeout) => if |msg| <= s.size { CallKeepsInv(s, t, msg, timeout, Back, o); }
    case SendAgain(t, left) => AgainKeepsInv(s, t, left, o);
    case UrgentCall(t, msg) => if |msg| <= s.size { CallKeepsInv(s, t, msg, 0, Front, o); }
    case CopyIn(t) => CopyInKeeps(s, t);
    case LinkIt(t) => LinkKeepsInv(s, t);
    case RecvCall(t, timeout) => CallKeepsInv(s, t, [], timeout, Back, o);
    case RecvAgain(t, left) => AgainKeepsInv(s, t, left, o);
    case CopyOut(t, n) => CopyOutKeeps(s, t, n);
    case FreeIt(t) => FreeKeepsInv(s, t);
    case Expire(_) => ErrorsKeepInv(s, e, o);
    case GiveUp(_) => ErrorsKeepInv(s, e, o);
    case Reset => ErrorsKeepInv(s, e, o);
  }

  /** A queue of `max` nodes with room for `size` bytes each, after rt_mq_init. */
  ghost predicate Initial(s: System, max: nat, size: nat)
  {
    && s == System(size, Fresh(max), s.content, map[], Nobody(), [], [])
    && Sized(max, s.content, size)
  }

  lemma InitialKeeps(s: System, max: nat, size: nat)
    requires Initial(s, max, size)
    ensures Inv(s)
  {
    FreshIsPartition(max);
  }

  ghost predicate Next(s: System, e: Event, s': System, o: Order)
  {
    Enabled(s, e) && s' == Step(s, e, o)
  }

  ghost predicate Run(ss: seq<System>, es: seq<Event>, max: nat, size: nat, o: Order)
  {
    && |ss| == |es| + 1 && Initial(ss[0], max, size)
    && forall i, j :: 0 <= i && j == i + 1 && j < |ss| ==> Next(ss[i], es[i], ss[j], o)
  }

  /** In every interleaving of sections, copies, timeouts and resets. */
  lemma {:induction false} EveryRunKeepsInv(ss: seq<System>, es: seq<Event>, max: nat, size: nat, o: Order, n: nat)
    requires Run(ss, es, max, size, o) && n < |ss|
    ensures Inv(ss[n])
  {
    hide Inv, Initial, Enabled, Step;
    if n == 0 {
      InitialKeeps(ss[0], max, size);
    } else {
      EveryRunKeepsInv(ss, es, max, size, o, n - 1);
      assert Next(ss[n - 1], es[n - 1], ss[n], o);
      StepKeepsInv(ss[n - 1], es[n - 1], o);
    }
  }

  // ----- the calls are the sections -----

  predicate Sends(e: Event)
  {
    e.SendCall? || e.UrgentCall? || e.SendAgain?
  }

  /** What a send brings, and how long it may wait: rt_mq_urgent does not. */
  function MessageOf(s: System, e: Event): Msg
    requires Sends(e) && Enabled(s, e)
  {
    if e.SendAgain? then s.th.calls[e.t].msg else e.msg
  }

  function PatienceOf(e: Event): int
    requires Sends(e)
  {
    match e
    case SendCall(_, _, timeout) => timeout
    case SendAgain(_, left) => left
    case UrgentCall(_, _) => 0
  }

  /** The sends of the system are the sections of the object: a message that is too large is refused, and otherwise the
      thread holds a node, to be linked in front if it is urgent, or waits with its message, as the outcome says. */
  lemma SendIsSection(s: System, e: Event, o: Order)
    requires Inv(s) && Enabled(s, e) && Sends(e)
    ensures var msg, s' := MessageOf(s, e), Step(s, e, o);
            var (q, r) := TakeFreeSection(View(s), e.t, PatienceOf(e), o);
            if |msg| > s.size then s' == s
            else
              && View(s') == q && (r.Parked? <==> e.t in s'.th.calls) && (r == Done(Ok, None) <==> e.t in s'.jobs)
              && (r.Parked? ==> s'.th.calls[e.t] == Send(msg, PatienceOf(e)))
              && (e.t in s'.jobs ==> s'.jobs[e.t] == Job(s.nodes.free[0], msg, if e.UrgentCall? then Front else Back, false))
  {
    hide Stored, Deliveries, NoLostWakeup;
    if e.SendAgain? { RunsKeeps(s.th, e.t, |s.nodes.queue|, |s.nodes.free|); }
  }

  /** Linking a node appends the message to what the receivers will see, or puts an urgent one in front. */
  lemma LinkIsSection(s: System, t: Tid, o: Order)
    requires Enabled(s, LinkIt(t))
    ensures var j, s' := s.jobs[t], Step(s, LinkIt(t), o);
            var (q, r) := LinkSection(View(s), j.node, j.purpose.Front?);
            && View(s') == q && t !in s'.jobs
            && s'.deque == (if j.purpose.Front? then [j.msg] + s.deque else s.deque + [j.msg])
            && s'.th.recvAwake == s.th.recvAwake + if r.Done? && r.woken.Some? then {r.woken.value} else {}
  {
  }

  /** So are the receives, which get the front message. */
  lemma RecvIsSection(s: System, e: Event, o: Order)
    requires Inv(s) && Enabled(s, e) && (e.RecvCall? || e.RecvAgain?)
    ensures var timeout, s' := if e.RecvCall? then e.timeout else e.left, Step(s, e, o);
            var (q, r) := TakeFrontSection(View(s), e.t, timeout, o);
            && View(s') == q && (r.Parked? <==> e.t in s'.th.calls) && (r == Done(Ok, None) <==> e.t in s'.jobs)
            && (r.Parked? ==> s'.th.calls[e.t] == Recv(timeout))
            && (e.t in s'.jobs ==> s.deque == [s'.jobs[e.t].msg] + s'.deque && s'.jobs[e.t].node == s.nodes.queue[0])
  {
    hide Partition, Hands, Sized, JobsHold, Deliveries, NoLostWakeup;
    if e.RecvAgain? { RunsKeeps(s.th, e.t, |s.nodes.queue|, |s.nodes.free|); }
  }

  lemma FreeIsSection(s: System, t: Tid, o: Order)
    requires Enabled(s, FreeIt(t))
    ensures var s' := Step(s, FreeIt(t), o);
            var (q, r) := GiveFreeSection(View(s), s.jobs[t].node);
            && View(s') == q && t !in s'.jobs && s'.deque == s.deque
            && s'.th.sendAwake == s.th.sendAwake + if r.Done? && r.woken.Some? then {r.woken.value} else {}
  {
  }

  /** A reset drops the messages and lets all who wait fail. */
  lemma ResetIsSection(s: System, o: Order)
    ensures var s' := Step(s, Reset, o);
            && View(s') == ResetSection(View(s)) && s'.deque == [] && s'.jobs == s.jobs
            && forall t :: t in s.th.recvWait + s.th.sendWait ==> t in s'.th.failed && s'.th.failed[t] == Failed
  {
  }

  /** A timeout takes the thread off its list and touches nothing else. */
  lemma ExpireKeepsQueue(s: System, t: Tid, o: Order)
    requires Placed(s.th) && Enabled(s, Expire(t))
    ensures var s' := Step(s, Expire(t), o);
            && s' == s.(th := s'.th) && t !in s'.th.recvWait + s'.th.sendWait
            && t in s'.th.failed && s'.th.failed[t] == Timeout
  {
    DroppedMembers(s.th.recvWait, t);
    DroppedMembers(s.th.sendWait, t);
  }

  // ----- whose turn it is -----

  lemma CallLines(s: System, t: Tid, msg: Msg, timeout: int, purpose: Purpose, o: Order)
    requires Placed(s.th) && Lined(s.th, o) && Idle(s.th, t)
    ensures var th := AfterTakeFree(s, t, msg, timeout, purpose, o).th;
            Lined(th, o) && Serves(s.th, th, o) && t !in th.recvAwake && t !in th.sendAwake
    ensures var th := AfterTakeFront(s, t, timeout, o).th;
            Lined(th, o) && Serves(s.th, th, o) && t !in th.recvAwake && t !in th.sendAwake
  {
    hide Lined, Serves, Enqueue;
    NobodyWoken(s.th, s.th, o);
    ParkLines(s.th, t, msg, timeout, o);
  }

  lemma AgainLines(s: System, t: Tid, msg: Msg, left: int, o: Order)
    requires Inv(s) && Lined(s.th, o) && t in s.th.calls
    requires if s.th.calls[t].Send? then t in s.th.sendAwake else t in s.th.recvAwake
    ensures var th := AfterTakeFree(s.(th := Runs(s.th, t)), t, msg, left, Back, o).th; Lined(th, o) && Serves(s.th, th, o)
    ensures var th := AfterTakeFront(s.(th := Runs(s.th, t)), t, left, o).th; Lined(th, o) && Serves(s.th, th, o)
  {
    hide Lined, Serves, AfterTakeFree, AfterTakeFront, Stored, Deliveries, Apart;
    var s' := s.(th := Runs(s.th, t));
    RunsKeeps(s.th, t, |s.nodes.queue|, |s.nodes.free|);
    LeaveLines(s.th, t, o);
    CallLines(s', t, msg, left, Back, o);
    RunsThenServes(s.th, t, AfterTakeFree(s', t, msg, left, Back, o).th, o);
    RunsThenServes(s.th, t, AfterTakeFront(s', t, left, o).th, o);
  }

  lemma WakeStepLines(s: System, t: Tid, o: Order)
    requires Lined(s.th, o) && t in s.jobs
    ensures var th := AfterLink(s, t).th; Lined(th, o) && Serves(s.th, th, o)
    ensures var th := AfterFree(s, t).th; Lined(th, o) && Serves(s.th, th, o)
  {
    hide Lined, Serves;
    WakeLines(s.th, o);
  }

  /** Every step keeps the wait lists in line and serves the thread whose turn it is. */
  lemma StepLines(s: System, e: Event, o: Order)
    requires Inv(s) && Lined(s.th, o) && Enabled(s, e)
    ensures var s' := Step(s, e, o); Lined(s'.th, o) && Serves(s.th, s'.th, o)
  {
    hide Inv, Lined, Serves, AfterTakeFree, AfterTakeFront, AfterCopyIn, AfterCopyOut, AfterLink, AfterFree;
    match e
    case SendCall(t, msg, timeout) => FirstLines(s, t, msg, timeout, Back, o);
    case SendAgain(t, left) => AgainLines(s, t, s.th.calls[t].msg, left, o);
    case UrgentCall(t, msg) => FirstLines(s, t, msg, 0, Front, o);
    case CopyIn(t) => QuietLines(s, t, 0, o);
    case LinkIt(t) => WakeStepLines(s, t, o);
    case RecvCall(t, timeout) => FirstLines(s, t, [], timeout, Back, o);
    case RecvAgain(t, left) => AgainLines(s, t, [], left, o);
    case CopyOut(t, room) => QuietLines(s, t, room, o);
    case FreeIt(t) => WakeStepLines(s, t, o);
    case Expire(t) => LeaveLines(s.th, t, o);
    case GiveUp(t) => LeaveLines(s.th, t, o);
    case Reset => LeaveLines(s.th, 0, o);
  }

  lemma FirstLines(s: System, t: Tid, msg: Msg, timeout: int, purpose: Purpose, o: Order)
    requires Inv(s) && Lined(s.th, o) && Free(s, t)
    ensures var th := AfterTakeFree(s, t, msg, timeout, purpose, o).th; Lined(th, o) && Serves(s.th, th, o)
    ensures var th := AfterTakeFront(s, t, timeout, o).th; Lined(th, o) && Serves(s.th, th, o)
    ensures Serves(s.th, s.th, o)
  {
    hide Lined, Serves, Stored, Deliveries, Apart, NoLostWakeup, AfterTakeFree, AfterTakeFront;
    NobodyWoken(s.th, s.th, o);
    CallLines(s, t, msg, timeout, purpose, o);
  }

  lemma QuietLines(s: System, t: Tid, room: nat, o: Order)
    requires Lined(s.th, o) && t in s.jobs
    ensures var th := AfterCopyIn(s, t).th; Lined(th, o) && Serves(s.th, th, o)
    ensures var th := AfterCopyOut(s, t, room).th; Lined(th, o) && Serves(s.th, th, o)
  {
    hide Lined, Serves;
    NobodyWoken(s.th, s.th, o);
  }

  lemma {:induction false} EveryRunLines(ss: seq<System>, es: seq<Event>, max: nat, size: nat, o: Order, n: nat)
    requires Run(ss, es, max, size, o) && n < |ss|
    ensures Lined(ss[n].th, o) && (n > 0 ==> Serves(ss[n - 1].th, ss[n].th, o))
  {
    hide Inv, Enabled, Step, Lined, Serves, Sized;
    LinedAtFirst<Msg>(o);
    if n > 0 {
      EveryRunLines(ss, es, max, size, o, n - 1);
      EveryRunKeepsInv(ss, es, max, size, o, n - 1);
      assert Next(ss[n - 1], es[n - 1], ss[n], o);
      StepLines(ss[n - 1], es[n - 1], o);
    }
  }

  // ----- the calls alone tell what is in the queue -----

  datatype Offer = Offer(msg: Msg, urgent: bool)

  /** A message and the size of the buffer it went to. */
  datatype Arrival = Arrival(msg: Msg, room: nat)

  /** A queue of messages as the callers imagine it: what each sender last came with, the messages inside, what each
      receiver last took out, and what arrived. */
  datatype Ledger = Ledger(offers: map<Tid, Offer>, deque: seq<Msg>, taken: map<Tid, Msg>, arrivals: seq<Arrival>)

  function Fetched(b: Ledger, t: Tid): Ledger
  {
    if b.deque == [] then b else b.(deque := b.deque[1..], taken := b.taken[t := b.deque[0]])
  }

  function Entered(b: Ledger, e: Event): Ledger
  {
    match e
    case SendCall(t, msg, _) => b.(offers := b.offers[t := Offer(msg, false)])
    case UrgentCall(t, msg) => b.(offers := b.offers[t := Offer(msg, true)])
    case LinkIt(t) =>
      if t !in b.offers then b
      else if b.offers[t].urgent then b.(deque := [b.offers[t].msg] + b.deque)
      else b.(deque := b.deque + [b.offers[t].msg])
    case RecvCall(t, _) => Fetched(b, t)
    case RecvAgain(t, _) => Fetched(b, t)
    case CopyOut(t, room) => if t in b.taken then b.(arrivals := b.arrivals + [Arrival(b.taken[t], room)]) else b
    case Reset => b.(deque := [])
    case SendAgain(_, _) => b
    case CopyIn(_) => b
    case FreeIt(_) => b
    case Expire(_) => b
    case GiveUp(_) => b
  }

  /** What a sequence of calls, copies and wake-ups comes to. */
  function Told(es: seq<Event>): Ledger
  {
    if es == [] then Ledger(map[], [], map[], []) else Entered(Told(es[..|es| - 1]), es[|es| - 1])
  }

  ghost predicate JobAgrees(j: Job, t: Tid, b: Ledger)
  {
    if j.purpose.Out? then t in b.taken && b.taken[t] == j.msg
    else t in b.offers && b.offers[t] == Offer(j.msg, j.purpose.Front?)
  }

  ghost predicate JobsAgree(jobs: map<Tid, Job>, b: Ledger)
  {
    forall t :: t in jobs ==> JobAgrees(jobs[t], t, b)
  }

  ghost predicate CallsAgree(calls: map<Tid, Call<Msg>>, b: Ledger)
  {
    forall t :: t in calls && calls[t].Send? ==> t in b.offers && b.offers[t] == Offer(calls[t].msg, false)
  }

  ghost predicate ArrivalsAgree(delivered: seq<Delivery>, arrivals: seq<Arrival>)
  {
    && |delivered| == |arrivals|
    && forall i :: 0 <= i < |delivered| ==> delivered[i].msg == arrivals[i].msg && delivered[i].room == arrivals[i].room
  }

  ghost predicate Agrees(s: System, b: Ledger)
  {
    && s.deque == b.deque && JobsAgree(s.jobs, b) && CallsAgree(s.th.calls, b) && ArrivalsAgree(s.delivered, b.arrivals)
  }

  lemma OfferAgrees(s: System, b: Ledger, t: Tid, msg: Msg, timeout: int, purpose: Purpose, o: Order)
    requires Agrees(s, b) && t in b.offers && b.offers[t] == Offer(msg, purpose.Front?) && !purpose.Out?
    requires purpose.Front? ==> timeout == 0
    ensures Agrees(AfterTakeFree(s, t, msg, timeout, purpose, o), b)
  {
  }

  lemma NewOffer(s: System, b: Ledger, t: Tid, offer: Offer)
    requires Agrees(s, b) && Free(s, t)
    ensures Agrees(s, b.(offers := b.offers[t := offer]))
  {
  }

  lemma FetchAgrees(s: System, b: Ledger, t: Tid, timeout: int, o: Order)
    requires Agrees(s, b) && Free(s, t) && (s.deque == [] <==> s.nodes.queue == [])
    ensures Agrees(AfterTakeFront(s, t, timeout, o), Fetched(b, t))
  {
  }

  lemma LinkAgrees(s: System, b: Ledger, t: Tid)
    requires Agrees(s, b) && t in s.jobs && !s.jobs[t].purpose.Out?
    ensures Agrees(AfterLink(s, t), Entered(b, LinkIt(t)))
  {
    assert JobAgrees(s.jobs[t], t, b);
  }

  lemma CopyOutAgrees(s: System, b: Ledger, t: Tid, room: nat)
    requires Inv(s) && Agrees(s, b) && t in s.jobs && s.jobs[t].purpose.Out? && !s.jobs[t].copied
    ensures Agrees(AfterCopyOut(s, t, room), Entered(b, CopyOut(t, room)))
  {
    hide Partition, QueueHolds, Sound, Deliveries, Hands, JobsHold, Apart;
    CopyOutKeeps(s, t, room);
    assert JobAgrees(s.jobs[t], t, b);
  }

  lemma CopyInAgrees(s: System, b: Ledger, t: Tid)
    requires Agrees(s, b) && t in s.jobs
    ensures Agrees(AfterCopyIn(s, t), b)
  {
    assert JobAgrees(s.jobs[t], t, b);
  }

  lemma RunsAgrees(s: System, b: Ledger, t: Tid)
    requires Inv(s) && Agrees(s, b) && t in s.th.calls
    requires if s.th.calls[t].Send? then t in s.th.sendAwake else t in s.th.recvAwake
    ensures Agrees(s.(th := Runs(s.th, t)), b) && Free(s.(th := Runs(s.th, t)), t)
    ensures s.deque == [] <==> s.nodes.queue == []
  {
    RunsKeeps(s.th, t, |s.nodes.queue|, |s.nodes.free|);
    NothingQueued(s);
  }

  lemma StepAgrees(s: System, b: Ledger, e: Event, o: Order)
    requires Inv(s) && Agrees(s, b) && Enabled(s, e)
    ensures Agrees(Step(s, e, o), Entered(b, e))
  {
    hide Agrees, Inv, AfterTakeFree, AfterTakeFront, AfterLink, AfterCopyIn, AfterCopyOut, Fetched;
    match e
    case SendCall(t, msg, timeout) =>
      NewOffer(s, b, t, Offer(msg, false));
      OfferAgrees(s, Entered(b, e), t, msg, timeout, Back, o);
    case UrgentCall(t, msg) =>
      NewOffer(s, b, t, Offer(msg, true));
      OfferAgrees(s, Entered(b, e), t, msg, 0, Front, o);
    case SendAgain(t, left) => AgainAgrees(s, b, t, left, o);
    case CopyIn(t) => CopyInAgrees(s, b, t);
    case LinkIt(t) => LinkAgrees(s, b, t);
    case RecvCall(t, timeout) => RecvAgrees(s, b, t, timeout, o);
    case RecvAgain(t, left) => AgainAgrees(s, b, t, left, o);
    case CopyOut(t, room) => CopyOutAgrees(s, b, t, room);
    case FreeIt(t) => OthersAgree(s, b, t);
    case Expire(t) => OthersAgree(s, b, t);
    case GiveUp(t) => OthersAgree(s, b, t);
    case Reset => OthersAgree(s, b, 0);
  }

  lemma RecvAgrees(s: System, b: Ledger, t: Tid, timeout: int, o: Order)
    requires Inv(s) && Agrees(s, b) && Free(s, t)
    ensures Agrees(AfterTakeFront(s, t, timeout, o), Fetched(b, t))
  {
    NothingQueued(s);
    FetchAgrees(s, b, t, timeout, o);
  }

  lemma AgainAgrees(s: System, b: Ledger, t: Tid, left: int, o: Order)
    requires Inv(s) && Agrees(s, b) && t in s.th.calls
    requires if s.th.calls[t].Send? then t in s.th.sendAwake else t in s.th.recvAwake
    ensures var s' := s.(th := Runs(s.th, t));
            if s.th.calls[t].Send? then Agrees(AfterTakeFree(s', t, s.th.calls[t].msg, left, Back, o), b)
            else Agrees(AfterTakeFront(s', t, left, o), Fetched(b, t))
  {
    hide Inv, AfterTakeFree, AfterTakeFront, Fetched, JobsAgree, ArrivalsAgree;
    var s' := s.(th := Runs(s.th, t));
    RunsAgrees(s, b, t);
    if s.th.calls[t].Send? {
      OfferAgrees(s', b, t, s.th.calls[t].msg, left, Back, o);
    } else {
      FetchAgrees(s', b, t, left, o);
    }
  }

  lemma OthersAgree(s: System, b: Ledger, t: Tid)
    requires Agrees(s, b)
    ensures t in s.jobs ==> Agrees(AfterFree(s, t), b)
    ensures Agrees(s.(th := Expired(s.th, t)), b) && Agrees(s.(th := GivenUp(s.th, t)), b)
    ensures Agrees(s.(nodes := Drained(s.nodes), th := AllFailed(s.th), deque := []), b.(deque := []))
  {
  }

  /** In every interleaving of sections, copies, timeouts and resets the queue is that one: a message sent goes to the
      back and an urgent one to the front at the moment it is linked, and receivers take from the front; all that
      arrives is what the calls alone tell. */
  lemma {:induction false} EveryRunIsDeque(ss: seq<System>, es: seq<Event>, max: nat, size: nat, o: Order, n: nat)
    requires Run(ss, es, max, size, o) && n < |ss|
    ensures Agrees(ss[n], Told(es[..n]))
  {
    hide Inv, Enabled, Step, Entered, Sized;
    if n > 0 {
      hide Agrees, Initial;
      EveryRunIsDeque(ss, es, max, size, o, n - 1);
      EveryRunKeepsInv(ss, es, max, size, o, n - 1);
      assert Next(ss[n - 1], es[n - 1], ss[n], o);
      StepAgrees(ss[n - 1], Told(es[..n - 1]), es[n - 1], o);
      assert es[..n][..n - 1] == es[..n - 1];
    }
  }

  // ----- the object in memory -----

  /** The nodes counted in 16 bits lie in the pool. */
  lemma PoolHolds(pool: nat, each: nat, count: nat)
    requires each > 0 && count == pool / each % (UINT16_MAX + 1)
    ensures count * each <= pool
  {
    assert count <= pool / each;
    assert pool / each * each <= pool;
    MulMonotone(count, pool / each, each);
  }

  /** struct rt_messagequeue; nodes are numbered by their place in the pool. */
  class MessageQueue {
    const size: nat
    const max: nat
    const next: array<int>
    const pool: array<int>
    const o: Order
    var free: int
    var head: int
    var tail: int
    var entry: nat
    var recvWait: seq<Tid>
    var sendWait: seq<Tid>

    ghost var nodes: Nodes

    ghost predicate Linked()
      reads this, next
    {
      && max <= UINT16_MAX && next.Length == max == nodes.max
      && Partition(nodes)
      && Chained(next[..], free, nodes.free) && Chained(next[..], head, nodes.queue)
      && tail == if nodes.queue == [] then NIL else nodes.queue[|nodes.queue| - 1]
    }

    ghost predicate Valid()
      reads this, next
    {
      Linked() && entry == |nodes.queue| && FitsPool(max, size, pool.Length) && pool != next
    }

    ghost function Abs(): Queue
      reads this
    {
      Queue(nodes, recvWait, sendWait)
    }

    /** rt_mq_init: thread all nodes onto the free list.  Both sizes are kept in 16 bits. */
    constructor (msgSize: Word, poolSize: Word, o: Order)
      ensures Valid() && this.o == o && nodes == Fresh(max) && recvWait == sendWait == []
      ensures size == AlignUp(msgSize) % (UINT16_MAX + 1)
      ensures max == poolSize / (size + NODE) % (UINT16_MAX + 1) && pool.Length == poolSize && fresh(pool) && fresh(next)
    {
      var sz := AlignUp(msgSize) % (UINT16_MAX + 1);
      var count := poolSize / (sz + NODE) % (UINT16_MAX + 1);
      PoolHolds(poolSize, sz + NODE, count);
      PayloadAtIs(count, sz);
      size, max, this.o := sz, count, o;
      next := new int[count];
      pool := new int[poolSize];
      free, head, tail, entry := NIL, NIL, NIL, 0;
      recvWait, sendWait := [], [];
      nodes := Fresh(count);
      new;
      ThreadAll();
      FreshIsPartition(max);
    }

    method ThreadAll()
      requires next.Length == max && free == NIL
      modifies this`free, next
      ensures Chained(next[..], free, Fresh(max).free)
    {
      ghost var all := Fresh(max).free;
      var i := 0;
      while i < max
        invariant 0 <= i <= max && Chained(next[..], free, all[max - i..])
      {
        ghost var was := next[..];
        ChainedPush(was, free, all[max - i..], i);
        next[i] := free;
        assert next[..] == was[i := free] && all[max - (i + 1)..] == [i] + all[max - i..];
        free := i;
        i := i + 1;
      }
      assert all[0..] == all;
    }

    /** First section of rt_mq_send_wait, and with timeout 0 of rt_mq_urgent; `node` is the node taken. */
    method TakeFreeRound(t: Tid, timeout: int) returns (r: Outcome, node: int)
      requires Valid()
      modifies this
      ensures Valid() && (Abs(), r) == TakeFreeSection(old(Abs()), t, timeout, o)
      ensures r == Done(Ok, None) ==> old(nodes.free) != [] && node == old(nodes.free[0]) && node in nodes.held
    {
      node := free;
      if node == NIL {
        if timeout == 0 {
          return Done(Full, None), node;
        }
        sendWait := Enqueue(o.flag, sendWait, t, o.prio);
        return Parked, node;
      }
      TakeFreeKeeps(nodes, t);
      ChainedPop(next[..], free, nodes.free);
      free := next[node];
      nodes := TakeFree(nodes, t);
      return Done(Ok, None), node;
    }

    /** The end of both sends: count the node just linked and wake a receiver for it.  The count cannot
        overflow, because a pool has no more than 0xFFFF nodes. */
    method Announce() returns (r: Outcome)
      requires entry < max <= UINT16_MAX
      modifies this`entry, this`recvWait
      ensures entry == old(entry) + 1
      ensures recvWait == if old(recvWait) == [] then [] else old(recvWait)[1..]
      ensures r == Done(Ok, if old(recvWait) == [] then None else Some(old(recvWait)[0]))
    {
      if entry < UINT16_MAX {
        entry := entry + 1;
      } else {
        assert false;
      }
      if recvWait != [] {
        var first := recvWait[0];
        recvWait := recvWait[1..];
        return Done(Ok, Some(first));
      }
      return Done(Ok, None);
    }

    /** Link a node behind the last one. */
    method Append(node: int)
      requires Linked() && node in nodes.held
      modifies this`head, this`tail, next
      ensures Chained(next[..], free, nodes.free) && Chained(next[..], head, nodes.queue + [node]) && tail == node
    {
      ghost var nx := next[..];
      next[node] := NIL;
      assert next[..] == nx[node := NIL];
      ChainedElsewhere(nx, free, nodes.free, node, NIL);
      ChainedElsewhere(nx, head, nodes.queue, node, NIL);
      ChainedAppend(next[..], head, nodes.queue, node);
      nx := next[..];
      if tail != NIL {
        ChainedElsewhere(nx, free, nodes.free, tail, node);
        next[tail] := node;
        assert next[..] == nx[tail := node];
      }
      tail := node;
      if head == NIL { head := node; }
    }

    /** Second section of rt_mq_send_wait. */
    method LinkBackRound(node: int) returns (r: Outcome)
      requires Valid() && node in nodes.held
      modifies this, next
      ensures Valid() && (Abs(), r) == LinkSection(old(Abs()), node, false)
    {
      LinkKeeps(nodes, node, false);
      Append(node);
      nodes := Link(nodes, node, false);
      r := Announce();
    }

    /** Link a node in front of the first one. */
    method Prepend(node: int)
      requires Linked() && node in nodes.held
      modifies this`head, this`tail, next
      ensures Chained(next[..], free, nodes.free) && Chained(next[..], head, [node] + nodes.queue)
      ensures tail == if nodes.queue == [] then node else nodes.queue[|nodes.queue| - 1]
    {
      ghost var nx := next[..];
      ChainedElsewhere(nx, free, nodes.free, node, head);
      ChainedPush(nx, head, nodes.queue, node);
      next[node] := head;
      assert next[..] == nx[node := head];
      head := node;
      if tail == NIL { tail := node; }
    }

    /** Second section of rt_mq_urgent. */
    method LinkFrontRound(node: int) returns (r: Outcome)
      requires Valid() && node in nodes.held
      modifies this, next
      ensures Valid() && (Abs(), r) == LinkSection(old(Abs()), node, true)
    {
      LinkKeeps(nodes, node, true);
      Prepend(node);
      nodes := Link(nodes, node, true);
      r := Announce();
    }

    /** Unlink the front node. */
    method Unlink() returns (node: int)
      requires Linked() && nodes.queue != []
      modifies this`head, this`tail, this`nodes
      ensures node == old(nodes.queue[0]) && nodes == old(nodes).(queue := old(nodes.queue)[1..])
      ensures Chained(next[..], head, nodes.queue)
      ensures tail == if nodes.queue == [] then NIL else nodes.queue[|nodes.queue| - 1]
    {
      node := head;
      HeadTail(nodes.queue);
      ChainedPop(next[..], head, nodes.queue);
      head := next[node];
      if tail == node { tail := NIL; }
      nodes := nodes.(queue := nodes.queue[1..]);
    }

    /** First section of rt_mq_recv; `node` is the node taken. */
    method TakeFrontRound(t: Tid, timeout: int) returns (r: Outcome, node: int)
      requires Valid()
      modifies this
      ensures Valid() && (Abs(), r) == TakeFrontSection(old(Abs()), t, timeout, o)
      ensures r == Done(Ok, None) ==> old(nodes.queue) != [] && node == old(nodes.queue[0]) && node in nodes.held
    {
      node := NIL;
      if entry == 0 {
        if timeout == 0 {
          return Done(Timeout, None), node;
        }
        recvWait := Enqueue(o.flag, recvWait, t, o.prio);
        return Parked, node;
      }
      TakeFrontKeeps(nodes, t);
      ghost var after := TakeFront(nodes, t);
      node := Unlink();
      if entry > 0 { entry := entry - 1; }
      nodes := after;
      return Done(Ok, None), node;
    }

    /** Put a node on the free list. */
    method Push(node: int)
      requires 0 <= node < next.Length && Chained(next[..], free, nodes.free) && node !in nodes.free
      modifies this`free, next
      ensures free == node && next[..] == old(next[..])[node := old(free)]
      ensures Chained(next[..], free, [node] + nodes.free)
    {
      ChainedPush(next[..], free, nodes.free, node);
      ghost var nx := next[..];
      next[node] := free;
      assert next[..] == nx[node := free];
      free := node;
    }

    /** Second section of rt_mq_recv: give the node back and wake a sender. */
    method GiveFreeRound(node: int) returns (r: Outcome)
      requires Valid() && node in nodes.held
      modifies this, next
      ensures Valid() && (Abs(), r) == GiveFreeSection(old(Abs()), node)
    {
      GiveFreeKeeps(nodes, node);
      ChainedElsewhere(next[..], head, nodes.queue, node, free);
      Push(node);
      nodes := GiveFree(nodes, node);
      if sendWait != [] {
        var first := sendWait[0];
        sendWait := sendWait[1..];
        return Done(Ok, Some(first));
      }
      return Done(Ok, None);
    }

    /** The loop of the reset: move every queued node to the free list. */
    method Drain()
      requires Linked()
      modifies this`head, this`tail, this`free, this`nodes, next
      ensures Linked() && nodes == Drained(old(nodes))
    {
      while head != NIL
        invariant Linked() && Drained(nodes) == Drained(old(nodes))
        decreases |nodes.queue|
      {
        ghost var after := nodes.(free := [nodes.queue[0]] + nodes.free, queue := nodes.queue[1..]);
        MoveKeeps(nodes);
        var msg := Unlink();
        ChainedElsewhere(next[..], head, nodes.queue, msg, free);
        Push(msg);
        nodes := after;
      }
    }

    /** rt_ipc_list_resume_all on both lists. */
    method ResumeAll() returns (woken: seq<Tid>)
      modifies this`recvWait, this`sendWait
      ensures recvWait == sendWait == [] && woken == old(recvWait + sendWait)
    {
      woken := [];
      while recvWait != []
        invariant woken + recvWait == old(recvWait) && sendWait == old(sendWait)
        decreases |recvWait|
      {
        woken := woken + [recvWait[0]];
        recvWait := recvWait[1..];
      }
      while sendWait != []
        invariant woken + sendWait == old(recvWait + sendWait) && recvWait == []
        decreases |sendWait|
      {
        woken := woken + [sendWait[0]];
        sendWait := sendWait[1..];
      }
    }

    /** rt_mq_control(RT_IPC_CMD_RESET); `woken` are the threads whose error is set to -RT_ERROR. */
    method Reset() returns (woken: seq<Tid>)
      requires Valid()
      modifies this, next
      ensures Valid() && Abs() == ResetSection(old(Abs()))
      ensures woken == old(recvWait + sendWait)
    {
      woken := ResumeAll();
      DrainedKeeps(nodes);
      Drain();
      entry := 0;
    }

    /** Between the sections of a send: copy the message into the node. */
    method CopyIn(node: int, msg: Msg)
      requires Valid() && node in nodes.held && |msg| <= size
      modifies pool
      ensures Valid() && Copied(old(pool[..]), pool[..], node, msg, max, size)
    {
      PayloadInside(node, max, size);
      CopyTo(pool, PayloadAt(node, size), msg);
      WrittenByCopy(old(pool[..]), pool[..], node, msg, max, size);
    }

    /** Between the sections of a receive: copy the node into a buffer of `room` bytes. */
    method CopyOut(node: int, room: nat) returns (buffer: Msg)
      requires Valid() && node in nodes.held
      ensures |buffer| == if room > size then size else room
      ensures buffer <= BytesOf(pool[..], node, max, size)
    {
      PayloadInside(node, max, size);
      var at, n := PayloadAt(node, size), if room > size then size else room;
      buffer := pool[at..at + n];
    }
  }
}
