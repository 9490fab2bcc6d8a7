/** The intrusive circular lists of rtservice.h, and how ipc.c keeps suspended threads on them. */
module WaitLists {
  import opened Rings

  /** RT_IPC_FLAG_FIFO and RT_IPC_FLAG_PRIO. */
  datatype Flag = FIFO | PRIO

  /** An object's flag and the threads' priorities, which decide about places on its wait lists. */
  datatype Order = Order(flag: Flag, prio: nat -> nat)

  // ----- where a thread goes -----

  /** Index of the first entry at or after `i` that is less urgent (has a larger priority number) than `x`. */
  function SlotFrom<T>(q: seq<T>, x: T, prio: T -> nat, i: nat): (k: nat)
    requires i <= |q|
    ensures i <= k <= |q|
    ensures forall j :: i <= j < k ==> prio(q[j]) <= prio(x)
    ensures k < |q| ==> prio(x) < prio(q[k])
    decreases |q| - i
  {
    if i == |q| || prio(x) < prio(q[i]) then i else SlotFrom(q, x, prio, i + 1)
  }

  /** Where a newcomer goes in the queue: at the end, or in front of the first less urgent entry. */
  function Slot<T>(flag: Flag, q: seq<T>, x: T, prio: T -> nat): (k: nat)
    ensures k <= |q|
  {
    if flag.FIFO? then |q| else SlotFrom(q, x, prio, 0)
  }

  /** The queue after the newcomer was suspended on it. */
  function Enqueue<T>(flag: Flag, q: seq<T>, x: T, prio: T -> nat): seq<T>
  {
    var k := Slot(flag, q, x, prio);
    q[..k] + [x] + q[k..]
  }

  ghost predicate Sorted<T>(q: seq<T>, prio: T -> nat)
  {
    forall i, j :: 0 <= i < j < |q| ==> prio(q[i]) <= prio(q[j])
  }

  lemma EnqueueMembers<T>(flag: Flag, q: seq<T>, x: T, prio: T -> nat)
    ensures multiset(Enqueue(flag, q, x, prio)) == multiset(q) + multiset{x}
    ensures Distinct(q) && x !in q ==> Distinct(Enqueue(flag, q, x, prio))
  {
    var k := Slot(flag, q, x, prio);
    assert q == q[..k] + q[k..];
    if Distinct(q) && x !in q { DistinctInsert(q, k, x); }
  }

  lemma EnqueueElements<T>(flag: Flag, q: seq<T>, x: T, prio: T -> nat)
    ensures forall y :: y in Enqueue(flag, q, x, prio) <==> y == x || y in q
  {
    var k := Slot(flag, q, x, prio);
    assert q == q[..k] + q[k..];
  }

  /** Suspension by priority is a stable sorted insertion: the queue stays ordered, and the newcomer comes
      behind every entry that is as urgent as it is. */
  lemma EnqueueSorted<T>(q: seq<T>, x: T, prio: T -> nat)
    requires Sorted(q, prio)
    ensures Sorted(Enqueue(PRIO, q, x, prio), prio)
    ensures forall i :: 0 <= i < |q| ==> (i < Slot(PRIO, q, x, prio) <==> prio(q[i]) <= prio(x))
  {
    var k := SlotFrom(q, x, prio, 0);
    if k < |q| {
      forall j | k <= j < |q| ensures prio(x) < prio(q[j]) {
        assert j > k ==> prio(q[k]) <= prio(q[j]);
      }
    }
    InsertSorted(q, x, k, prio);
  }

  lemma InsertSorted<T>(q: seq<T>, x: T, k: nat, prio: T -> nat)
    requires Sorted(q, prio) && k <= |q|
    requires (forall j :: 0 <= j < k ==> prio(q[j]) <= prio(x)) && (forall j :: k <= j < |q| ==> prio(x) <= prio(q[j]))
    ensures Sorted(q[..k] + [x] + q[k..], prio)
  {
    var r := q[..k] + [x] + q[k..];
    forall i, j | 0 <= i < j < |r| ensures prio(r[i]) <= prio(r[j]) {
      if j > k { assert r[j] == q[j - 1]; }
      if i > k { assert r[i] == q[i - 1]; }
    }
  }

  // ----- the list in memory -----

  /** struct rt_list_node; on a wait list it is embedded in a thread, whose number and priority it carries here. */
  class Node {
    var next: Node
    var prev: Node
    const id: nat
    const priority: nat

    /** rt_list_init. */
    constructor (id: nat, priority: nat)
      ensures Linked([this]) && this.id == id && this.priority == priority
    {
      next, prev := this, this;
      this.id, this.priority := id, priority;
    }
  }

  /** The nodes `s`, in this order, form a circle with both link directions consistent. */
  ghost predicate Linked(s: seq<Node>)
    reads s
  {
    && s != [] && Distinct(s)
    && (forall i, j :: 0 <= i && j == i + 1 && j < |s| ==> s[i].next == s[j] && s[j].prev == s[i])
    && s[|s| - 1].next == s[0] && s[0].prev == s[|s| - 1]
  }

  /** rt_list_insert_after. */
  method InsertAfter(l: Node, n: Node, ghost s: seq<Node>, ghost k: nat)
    requires Linked(s) && k < |s| && s[k] == l && n !in s
    modifies s, n
    ensures Linked(s[..k + 1] + [n] + s[k + 1..])
  {
    ghost var t, m := s[..k + 1] + [n] + s[k + 1..], if k + 1 < |s| then k + 1 else 0;
    DistinctInsert(s, k + 1, n);
    assert l.next == s[m];
    l.next.prev := n;
    n.next := l.next;
    l.next := n;
    n.prev := l;
    assert t[k] == l && t[k + 1] == n && forall i :: 0 <= i < k ==> t[i] == s[i];
    assert forall i :: k + 2 <= i < |t| ==> t[i] == s[i - 1];
    forall i, j | 0 <= i && j == i + 1 && j < |t| ensures t[i].next == t[j] && t[j].prev == t[i] {
      if i < k {
        assert t[i] == s[i] && t[j] == s[j];
      } else if i > k + 1 {
        assert t[i] == s[i - 1] && t[j] == s[j - 1];
      }
    }
  }

  /** rt_list_insert_before; in front of the head means at the end. */
  method InsertBefore(l: Node, n: Node, ghost s: seq<Node>, ghost k: nat)
    requires Linked(s) && k < |s| && s[k] == l && n !in s
    modifies s, n
    ensures Linked(if k == 0 then s + [n] else s[..k] + [n] + s[k..])
  {
    ghost var i := if k == 0 then |s| else k;
    ghost var t := s[..i] + [n] + s[i..];
    DistinctInsert(s, i, n);
    assert l.prev == s[i - 1];
    l.prev.next := n;
    n.prev := l.prev;
    l.prev := n;
    n.next := l;
    assert forall j :: i < j < |t| ==> t[j] == s[j - 1];
    assert k == 0 ==> t == s + [n];
  }

  /** rt_list_remove; the removed node is left linked to itself. */
  method Remove(n: Node, ghost s: seq<Node>, ghost k: nat)
    requires Linked(s) && 0 < k < |s| && s[k] == n
    modifies s
    ensures Linked(Without(s, k)) && Linked([n])
  {
    ghost var t := Without(s, k);
    DistinctWithout(s, k);
    assert n.prev == s[k - 1] && n.next == s[if k + 1 < |s| then k + 1 else 0];
    n.next.prev := n.prev;
    n.prev.next := n.next;
    n.next := n;
    n.prev := n;
    assert forall i :: 0 <= i < |t| ==> t[i] == s[if i < k then i else i + 1];
  }

  /** rt_list_isempty. */
  method IsEmpty(l: Node, ghost s: seq<Node>) returns (b: bool)
    requires Linked(s) && s[0] == l
    ensures b <==> |s| == 1
  {
    b := l.next == l;
    assert |s| > 1 ==> l.next == s[1];
  }

  /** rt_list_len. */
  method Len(l: Node, ghost s: seq<Node>) returns (len: nat)
    requires Linked(s) && s[0] == l
    ensures len == |s| - 1
  {
    len := 0;
    var p := l;
    while p.next != l
      invariant len < |s| && p == s[len]
      decreases |s| - len
    {
      assert len + 1 < |s| && p.next == s[len + 1];
      p := p.next;
      len := len + 1;
    }
    ghost var m := if len + 1 < |s| then len + 1 else 0;
    assert p.next == s[m];
  }

  /** The scan of rt_ipc_list_suspend for the first less urgent thread; the list head means there is none. */
  method FindLessUrgent(list: Node, thread: Node, ghost q: seq<Node>) returns (n: Node)
    requires Linked([list] + q)
    ensures var i := SlotFrom(q, thread, (x: Node) => x.priority, 0);
            n == if i < |q| then q[i] else list
  {
    ghost var s := [list] + q;
    ghost var prio := (x: Node) => x.priority;
    ghost var i := 0;
    assert s[0] == list && (q != [] ==> s[1] == q[0]);
    DistinctTail(list, q);
    n := list.next;
    while n != list && thread.priority >= n.priority
      invariant i <= |q| && n == if i < |q| then q[i] else list
      invariant SlotFrom(q, thread, prio, 0) == SlotFrom(q, thread, prio, i)
      decreases |q| - i
    {
      assert s[i + 1] == n && (i + 1 < |q| ==> s[i + 2] == q[i + 1]);
      n := n.next;
      i := i + 1;
    }
  }

  lemma InsertedBehindHead<T>(head: T, q: seq<T>, x: T, k: nat)
    requires k <= |q|
    ensures var s := [head] + q;
            [head] + (q[..k] + [x] + q[k..]) == if k == |q| then s + [x] else s[..k + 1] + [x] + s[k + 1..]
  {
  }

  /** rt_ipc_list_suspend: the thread's node joins the list at its place. */
  method Suspend(list: Node, thread: Node, flag: Flag, ghost q: seq<Node>)
    requires Linked([list] + q) && thread !in [list] + q
    modifies [list] + q, thread
    ensures Linked([list] + Enqueue(flag, q, thread, (x: Node) => x.priority))
  {
    ghost var s := [list] + q;
    ghost var k := Slot(flag, q, thread, (x: Node) => x.priority);
    InsertedBehindHead(list, q, thread, k);
    DistinctTail(list, q);
    var n := list;
    if flag.PRIO? {
      n := FindLessUrgent(list, thread, q);
    }
    InsertBefore(n, thread, s, if k < |q| then k + 1 else 0);
  }

  /** rt_ipc_list_resume, with the unlinking that rt_thread_resume does: the first thread leaves the list. */
  method Resume(list: Node, ghost q: seq<Node>) returns (thread: Node)
    requires Linked([list] + q) && q != []
    modifies [list] + q
    ensures thread == q[0] && Linked([list] + q[1..]) && Linked([thread])
  {
    ghost var s := [list] + q;
    assert s[0] == list && s[1] == q[0];
    thread := list.next;
    Remove(thread, s, 1);
    assert Without(s, 1) == [list] + q[1..];
  }

  // ----- a wait list as an object has it -----

  function Ids(q: seq<Node>): (r: seq<nat>)
    ensures |r| == |q| && forall i :: 0 <= i < |q| ==> r[i] == q[i].id
  {
    seq(|q|, i requires 0 <= i < |q| => q[i].id)
  }

  /** Every node carries the priority of its thread. */
  ghost predicate Ranked(q: seq<Node>, prio: nat -> nat)
  {
    forall i :: 0 <= i < |q| ==> q[i].priority == prio(q[i].id)
  }

  lemma {:induction false} SlotOfIds(q: seq<Node>, x: Node, prio: nat -> nat, i: nat)
    requires i <= |q| && Ranked(q, prio) && x.priority == prio(x.id)
    ensures SlotFrom(q, x, (y: Node) => y.priority, i) == SlotFrom(Ids(q), x.id, prio, i)
    decreases |q| - i
  {
    if i < |q| { SlotOfIds(q, x, prio, i + 1); }
  }

  /** Suspending a node suspends its thread. */
  lemma EnqueueIds(flag: Flag, q: seq<Node>, x: Node, prio: nat -> nat)
    requires Ranked(q, prio) && x.priority == prio(x.id)
    ensures var r := Enqueue(flag, q, x, (y: Node) => y.priority);
            Ids(r) == Enqueue(flag, Ids(q), x.id, prio) && Ranked(r, prio)
  {
    SlotOfIds(q, x, prio, 0);
    IdsInsert(q, x, Slot(flag, q, x, (y: Node) => y.priority), prio);
  }

  lemma IdsInsert(q: seq<Node>, x: Node, k: nat, prio: nat -> nat)
    requires k <= |q| && Ranked(q, prio) && x.priority == prio(x.id)
    ensures Ids(q[..k] + [x] + q[k..]) == Ids(q)[..k] + [x.id] + Ids(q)[k..] && Ranked(q[..k] + [x] + q[k..], prio)
  {
  }

  /** The suspend_thread list of an object: its head, and behind it the nodes of the threads that wait. */
  class ThreadList {
    const head: Node
    const o: Order
    ghost var q: seq<Node>

    ghost predicate Valid()
      reads this, head, q
    {
      Linked([head] + q) && Ranked(q, o.prio)
    }

    constructor (o: Order)
      ensures Valid() && this.o == o && q == [] && fresh(head)
    {
      head := new Node(0, 0);
      this.o := o;
      q := [];
      new;
      assert [head] + q == [head];
    }

    method Park(thread: Node)
      requires Valid() && thread !in [head] + q && thread.priority == o.prio(thread.id)
      modifies this, head, q, thread
      ensures Valid() && Ids(q) == Enqueue(o.flag, Ids(old(q)), thread.id, o.prio)
      ensures forall n :: n in q ==> n == thread || n in old(q)
    {
      hide Linked, Ranked;
      EnqueueIds(o.flag, q, thread, o.prio);
      EnqueueElements(o.flag, q, thread, (y: Node) => y.priority);
      Suspend(head, thread, o.flag, q);
      q := Enqueue(o.flag, q, thread, (y: Node) => y.priority);
    }

    method Empty() returns (b: bool)
      requires Valid()
      ensures b <==> q == []
    {
      b := IsEmpty(head, [head] + q);
    }

    method Wake() returns (t: nat)
      requires Valid() && q != []
      modifies this, head, q
      ensures Valid() && q == old(q)[1..] && t == Ids(old(q))[0] && Ids(q) == Ids(old(q))[1..]
    {
      var thread := Resume(head, q);
      q := q[1..];
      return thread.id;
    }

    /** rt_ipc_list_resume_all; `woken` are the threads whose error is set to -RT_ERROR. */
    method WakeAll() returns (woken: seq<nat>)
      requires Valid()
      modifies this, head, q
      ensures Valid() && q == [] && woken == Ids(old(q))
    {
      hide Valid;
      ghost var was := q;
      woken := [];
      var empty := Empty();
      while !empty
        invariant |woken| <= |was| && q == was[|woken|..] && (empty <==> q == [])
        invariant Valid() && woken == Ids(was)[..|woken|]
        decreases |q|
      {
        assert forall n :: n in q ==> n in was;
        var t := Wake();
        woken := woken + [t];
        empty := Empty();
      }
    }
  }
}
