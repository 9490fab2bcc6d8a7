/** Event flags of ipc.c, bit masks being sets of bit numbers.  A send walks the whole wait list, and a waiter
    that clears bits takes them away from those behind it. */
module Events {
  import opened Rings
  import opened Kernel
  import opened WaitLists

  type Bits = set<nat>

  /** The bits RT_EVENT_FLAG_AND, RT_EVENT_FLAG_OR and RT_EVENT_FLAG_CLEAR of an option. */
  datatype Flags = Flags(and: bool, or: bool, clear: bool)

  /** A thread's event_set and event_info: what it waits for, and after a wake-up what it received. */
  datatype Want = Want(bits: Bits, option: Flags)

  /** The object between two sections, with the fields it uses of its threads. */
  datatype Event = Event(bits: Bits, waiting: seq<Tid>, wants: map<Tid, Want>)

  /** What a thread received; `clear` says that it took the bits away. */
  datatype Delivery = Delivery(t: Tid, mask: Bits, clear: bool)

  /** An option a receiver may use. */
  predicate Proper(option: Flags)
  {
    option.and || option.or
  }

  /** RT_EVENT_FLAG_AND wins over RT_EVENT_FLAG_OR. */
  predicate Satisfied(w: Want, bits: Bits)
  {
    if w.option.and then w.bits <= bits else w.option.or && w.bits * bits != {}
  }

  /** The bits that are left when a satisfied thread has received its own. */
  function Residual(w: Want, bits: Bits): Bits
  {
    if w.option.clear then bits - w.bits else bits
  }

  // ----- the walk of a send -----

  /** The walk so far: the bits left, the threads passed over, the deliveries made and the threads' fields. */
  datatype Walked = Walked(bits: Bits, stay: seq<Tid>, woken: seq<Delivery>, wants: map<Tid, Want>)

  /** A thread that waits for all its bits keeps its mask, one that waits for any keeps those that came; the
      bits cleared are those kept. */
  function Visit(w: Walked, t: Tid): Walked
    requires t in w.wants
  {
    var want := w.wants[t];
    if Satisfied(want, w.bits) then
      var mask := if want.option.and then want.bits else want.bits * w.bits;
      Walked(if want.option.clear then w.bits - mask else w.bits, w.stay,
             w.woken + [Delivery(t, mask, want.option.clear)], w.wants[t := want.(bits := mask)])
    else w.(stay := w.stay + [t])
  }

  function Walk(w: Walked, q: seq<Tid>): Walked
    requires forall t :: t in q ==> t in w.wants
    decreases |q|
  {
    if q == [] then w else Walk(Visit(w, q[0]), q[1..])
  }

  /** rt_event_send from disabling to enabling interrupts, for a non-empty set. */
  function SendSection(e: Event, bits: Bits): (Event, seq<Delivery>)
    requires forall t :: t in e.waiting ==> t in e.wants
  {
    var w := Walk(Walked(e.bits + bits, [], [], e.wants), e.waiting);
    (Event(w.bits, w.stay, w.wants), w.woken)
  }

  /** What a receive ends with: the mask, -RT_ETIMEOUT, or a place on the wait list. */
  datatype Received = Got(mask: Bits) | TimedOut | Waits

  /** rt_event_recv from disabling to enabling interrupts, for a non-empty set. */
  function RecvSection(e: Event, t: Tid, want: Want, timeout: int, o: Order): (Event, Received)
  {
    if Satisfied(want, e.bits) then
      var mask := e.bits * want.bits;
      (e.(bits := Residual(want, e.bits), wants := e.wants[t := want.(bits := mask)]), Got(mask))
    else if timeout == 0 then (e, TimedOut)
    else (e.(waiting := Enqueue(o.flag, e.waiting, t, o.prio), wants := e.wants[t := want]), Waits)
  }

  // ----- what the sections mean, bit by bit -----

  /** What a thread waits for has come: all of its bits, or any of them. */
  ghost predicate Comes(want: Want, bits: Bits)
  {
    if want.option.and then forall b :: b in want.bits ==> b in bits
    else exists b :: b in want.bits && b in bits
  }

  lemma SatisfiedIs(want: Want, bits: Bits)
    requires Proper(want.option)
    ensures Satisfied(want, bits) <==> Comes(want, bits)
  {
    if b :| b in want.bits && b in bits { assert b in want.bits * bits; }
    if want.bits * bits != {} {
      var b :| b in want.bits * bits;
      assert b in want.bits && b in bits;
    }
  }

  /** A receive gets its bits if they are there, exactly those that are, and otherwise waits unless it must not. */
  lemma RecvAnswers(e: Event, t: Tid, want: Want, timeout: int, o: Order)
    requires Proper(want.option)
    ensures var r := RecvSection(e, t, want, timeout, o).1;
            && (r.Got? <==> Comes(want, e.bits))
            && (r.TimedOut? <==> !Comes(want, e.bits) && timeout == 0)
            && (r.Got? ==> forall b :: b in r.mask <==> b in want.bits && b in e.bits)
  {
    SatisfiedIs(want, e.bits);
  }

  /** Handing `bits` out along a list: each thread in turn is served if what it waits for has come, with the bits it
      shares, and those who clear take them away from the threads behind.  `stay` are the threads passed over, `ds` the
      deliveries and `left` the bits that remain. */
  ghost predicate HandedOut(bits: Bits, q: seq<Tid>, wants: map<Tid, Want>, stay: seq<Tid>, ds: seq<Delivery>, left: Bits)
    requires forall t :: t in q ==> t in wants
    decreases |q|
  {
    if q == [] then stay == [] && ds == [] && left == bits
    else if Comes(wants[q[0]], bits) then
      && ds != [] && ds[0].t == q[0] && ds[0].clear == wants[q[0]].option.clear
      && (forall b :: b in ds[0].mask <==> b in wants[q[0]].bits && b in bits)
      && HandedOut(if ds[0].clear then bits - ds[0].mask else bits, q[1..], wants, stay, ds[1..], left)
    else stay != [] && stay[0] == q[0] && HandedOut(bits, q[1..], wants, stay[1..], ds, left)
  }

  // ----- what every step keeps -----

  /** No thread waits for what is already there. */
  ghost predicate Unsatisfied(bits: Bits, q: seq<Tid>, wants: map<Tid, Want>)
  {
    forall t :: t in q ==> t in wants && !Satisfied(wants[t], bits)
  }

  ghost predicate Inv(e: Event)
  {
    && Distinct(e.waiting) && Unsatisfied(e.bits, e.waiting, e.wants)
    && forall t :: t in e.waiting ==> t in e.wants && Proper(e.wants[t].option)
  }

  /** The walk between two threads: `q` is still ahead. */
  ghost predicate Between(w: Walked, q: seq<Tid>)
  {
    && Distinct(w.stay + q)
    && (forall t :: t in w.stay || t in q ==> t in w.wants && Proper(w.wants[t].option))
    && Unsatisfied(w.bits, w.stay, w.wants)
  }

  lemma FewerBits(w: Want, bits: Bits, fewer: Bits)
    requires !Satisfied(w, bits) && fewer <= bits
    ensures !Satisfied(w, fewer)
  {
    assert w.bits * fewer <= w.bits * bits;
  }

  lemma SplitDistinct(a: seq<Tid>, b: seq<Tid>)
    requires Distinct(a + b) && b != []
    ensures Distinct(a + b[1..]) && b[0] !in a && b[0] !in b[1..]
  {
    var ab := a + b;
    forall i | 0 <= i < |a| ensures a[i] != b[0] {
      assert ab[i] != ab[|a|];
    }
    forall i | 1 <= i < |b| ensures b[i] != b[0] {
      assert ab[|a|] != ab[|a| + i];
    }
    DistinctWithout(ab, |a|);
    assert Without(ab, |a|) == a + b[1..];
  }

  lemma VisitKeeps(w: Walked, q: seq<Tid>)
    requires Between(w, q) && q != []
    ensures Between(Visit(w, q[0]), q[1..])
  {
    var w' := Visit(w, q[0]);
    SplitDistinct(w.stay, q);
    forall t | t in w.stay ensures !Satisfied(w.wants[t], w'.bits) {
      FewerBits(w.wants[t], w.bits, w'.bits);
    }
    assert w.stay + [q[0]] + q[1..] == w.stay + q;
  }

  /** Whatever the waiters in front clear, nobody is left waiting for what remains. */
  lemma {:induction false} WalkSettles(w: Walked, q: seq<Tid>)
    requires Between(w, q)
    ensures Between(Walk(w, q), [])
    decreases |q|
  {
    if q == [] {
      assert w.stay + [] == w.stay + q;
    } else {
      VisitKeeps(w, q);
      WalkSettles(Visit(w, q[0]), q[1..]);
    }
  }

  lemma WalkStarts(e: Event, bits: Bits)
    requires Inv(e)
    ensures Between(Walked(bits, [], [], e.wants), e.waiting)
  {
    assert [] + e.waiting == e.waiting;
  }

  lemma WalkEnds(w: Walked)
    requires Between(w, [])
    ensures Inv(Event(w.bits, w.stay, w.wants))
  {
    assert w.stay + [] == w.stay;
  }

  lemma SendKeepsInv(e: Event, bits: Bits)
    requires Inv(e)
    ensures Inv(SendSection(e, bits).0)
  {
    var w := Walked(e.bits + bits, [], [], e.wants);
    WalkStarts(e, e.bits + bits);
    WalkSettles(w, e.waiting);
    WalkEnds(Walk(w, e.waiting));
  }

  lemma RecvKeepsInv(e: Event, t: Tid, want: Want, timeout: int, o: Order)
    requires Inv(e) && t !in e.waiting && Proper(want.option)
    ensures Inv(RecvSection(e, t, want, timeout, o).0)
  {
    var e' := RecvSection(e, t, want, timeout, o).0;
    if Satisfied(want, e.bits) {
      forall u | u in e.waiting ensures !Satisfied(e.wants[u], e'.bits) {
        FewerBits(e.wants[u], e.bits, e'.bits);
      }
    } else {
      EnqueueMembers(o.flag, e.waiting, t, o.prio);
      EnqueueElements(o.flag, e.waiting, t, o.prio);
    }
  }

  /** What a walk added to its lists is what handing out the bits gives. */
  lemma {:induction false} WalkHandsOut(w: Walked, q: seq<Tid>, wants: map<Tid, Want>)
    requires Between(w, q) && forall t :: t in q ==> t in wants && w.wants[t] == wants[t]
    ensures var w' := Walk(w, q);
            && w.stay <= w'.stay && w.woken <= w'.woken
            && HandedOut(w.bits, q, wants, w'.stay[|w.stay|..], w'.woken[|w.woken|..], w'.bits)
    decreases |q|
  {
    if q != [] {
      hide HandedOut, Comes;
      var w1, w' := Visit(w, q[0]), Walk(w, q);
      SplitDistinct(w.stay, q);
      VisitKeeps(w, q);
      SatisfiedIs(wants[q[0]], w.bits);
      WalkHandsOut(w1, q[1..], wants);
      VisitHandsOut(w, q, wants, w');
    }
  }

  lemma VisitHandsOut(w: Walked, q: seq<Tid>, wants: map<Tid, Want>, w': Walked)
    requires q != [] && (forall t :: t in q ==> t in wants && t in w.wants && w.wants[t] == wants[t])
    requires Satisfied(wants[q[0]], w.bits) <==> Comes(wants[q[0]], w.bits)
    requires var w1 := Visit(w, q[0]);
             && w1.stay <= w'.stay && w1.woken <= w'.woken
             && HandedOut(w1.bits, q[1..], wants, w'.stay[|w1.stay|..], w'.woken[|w1.woken|..], w'.bits)
    ensures w.stay <= w'.stay && w.woken <= w'.woken
    ensures HandedOut(w.bits, q, wants, w'.stay[|w.stay|..], w'.woken[|w.woken|..], w'.bits)
  {
    hide Comes, HandedOut;
    var w1, stay, ds := Visit(w, q[0]), w'.stay[|w.stay|..], w'.woken[|w.woken|..];
    if Comes(wants[q[0]], w.bits) {
      assert w'.woken[|w.woken|] == w1.woken[|w.woken|];
      assert ds[1..] == w'.woken[|w1.woken|..] && w1.stay == w.stay;
      ServedFirst(w.bits, q, wants, stay, ds, w'.bits);
    } else {
      assert w'.stay[|w.stay|] == w1.stay[|w.stay|];
      assert stay[1..] == w'.stay[|w1.stay|..] && w1.woken == w.woken;
      PassedFirst(w.bits, q, wants, stay, ds, w'.bits);
    }
  }

  lemma ServedFirst(bits: Bits, q: seq<Tid>, wants: map<Tid, Want>, stay: seq<Tid>, ds: seq<Delivery>, left: Bits)
    requires q != [] && (forall t :: t in q ==> t in wants) && Comes(wants[q[0]], bits) && Satisfied(wants[q[0]], bits)
    requires ds != [] && ds[0].t == q[0] && ds[0].clear == wants[q[0]].option.clear
    requires ds[0].mask == if wants[q[0]].option.and then wants[q[0]].bits else wants[q[0]].bits * bits
    requires HandedOut(if ds[0].clear then bits - ds[0].mask else bits, q[1..], wants, stay, ds[1..], left)
    ensures HandedOut(bits, q, wants, stay, ds, left)
  {
    hide Comes;
  }

  lemma PassedFirst(bits: Bits, q: seq<Tid>, wants: map<Tid, Want>, stay: seq<Tid>, ds: seq<Delivery>, left: Bits)
    requires q != [] && (forall t :: t in q ==> t in wants) && !Comes(wants[q[0]], bits)
    requires stay != [] && stay[0] == q[0] && HandedOut(bits, q[1..], wants, stay[1..], ds, left)
    ensures HandedOut(bits, q, wants, stay, ds, left)
  {
    hide Comes;
  }

  /** A send hands its bits and those that were there out along the wait list. */
  lemma SendHandsOut(e: Event, bits: Bits)
    requires Inv(e)
    ensures var (e', ds) := SendSection(e, bits);
            HandedOut(e.bits + bits, e.waiting, e.wants, e'.waiting, ds, e'.bits)
  {
    var w := Walked(e.bits + bits, [], [], e.wants);
    WalkStarts(e, e.bits + bits);
    WalkHandsOut(w, e.waiting, e.wants);
    var w' := Walk(w, e.waiting);
    assert w'.stay[0..] == w'.stay && w'.woken[0..] == w'.woken;
  }

  /** Nobody is left waiting for what is there: one who waits for all of its bits misses one, one who waits for any
      misses every one. */
  lemma LeftWaiting(e: Event, t: Tid)
    requires Inv(e) && t in e.waiting
    ensures var want := e.wants[t];
            if want.option.and then exists b :: b in want.bits && b !in e.bits
            else forall b :: b in want.bits ==> b !in e.bits
  {
    SatisfiedIs(e.wants[t], e.bits);
  }

  // ----- where bits go -----

  /** The bits that the deliveries took away. */
  function Taken(ds: seq<Delivery>): Bits
  {
    if ds == [] then {} else Taken(ds[..|ds| - 1]) + if ds[|ds| - 1].clear then ds[|ds| - 1].mask else {}
  }

  /** A delivery gives bits that are there, none of which an earlier delivery took away. */
  ghost predicate Exclusive(all: Bits, ds: seq<Delivery>)
  {
    forall k :: 0 <= k < |ds| ==> ds[k].mask <= all - Taken(ds[..k])
  }

  lemma VisitTakes(w: Walked, t: Tid, all: Bits)
    requires t in w.wants && w.bits == all - Taken(w.woken) && Exclusive(all, w.woken)
    ensures var w' := Visit(w, t); w'.bits == all - Taken(w'.woken) && Exclusive(all, w'.woken)
  {
    var w' := Visit(w, t);
    if Satisfied(w.wants[t], w.bits) {
      assert w'.woken[..|w.woken|] == w.woken;
      forall k | 0 <= k < |w'.woken| ensures w'.woken[k].mask <= all - Taken(w'.woken[..k]) {
        assert w'.woken[..k] == w.woken[..k];
      }
    }
  }

  lemma {:induction false} WalkTakes(w: Walked, q: seq<Tid>, all: Bits)
    requires (forall t :: t in q ==> t in w.wants) && w.bits == all - Taken(w.woken) && Exclusive(all, w.woken)
    ensures var w' := Walk(w, q); w'.bits == all - Taken(w'.woken) && Exclusive(all, w'.woken)
    decreases |q|
  {
    if q != [] {
      VisitTakes(w, q[0], all);
      WalkTakes(Visit(w, q[0]), q[1..], all);
    }
  }

  /** A send loses no bit and gives none twice: what is missing afterwards went to receivers that clear, and
      nobody behind such a receiver got it. */
  lemma SendConserves(e: Event, bits: Bits)
    requires Inv(e)
    ensures var (e', ds) := SendSection(e, bits);
            e'.bits == e.bits + bits - Taken(ds) && Exclusive(e.bits + bits, ds)
  {
    WalkTakes(Walked(e.bits + bits, [], [], e.wants), e.waiting, e.bits + bits);
  }

  /** So does a receive. */
  lemma RecvConserves(e: Event, t: Tid, want: Want, timeout: int, o: Order)
    ensures var (e', r) := RecvSection(e, t, want, timeout, o);
            && (r.Got? ==> r.mask <= e.bits && r.mask <= want.bits)
            && e'.bits == e.bits - if r.Got? && want.option.clear then r.mask else {}
  {
  }

  /** Being visited by a walk ends like a receive that finds the same bits: the same mask, and the same set left. */
  lemma VisitLikeRecv(w: Walked, e: Event, t: Tid, timeout: int, o: Order)
    requires t in w.wants && e.bits == w.bits
    ensures var w' := Visit(w, t);
            var (e', r) := RecvSection(e, t, w.wants[t], timeout, o);
            && w'.bits == e'.bits
            && (r.Got? ==> w'.woken == w.woken + [Delivery(t, r.mask, w.wants[t].option.clear)]
                           && w'.wants[t] == e'.wants[t])
            && (!r.Got? ==> w'.woken == w.woken && w'.stay == w.stay + [t])
  {
    var want := w.wants[t];
    if want.option.and && Satisfied(want, w.bits) { assert w.bits * want.bits == want.bits; }
    assert want.bits * w.bits == w.bits * want.bits;
  }

  // ----- the object together with the threads that use it -----

  /** `awake` are the threads woken by a send that have not run since, with what they were sent; `since` says when a
      thread was parked, on a clock that ticks with every parking. */
  datatype System = System(e: Event, timeouts: map<Tid, int>, awake: map<Tid, Bits>, failed: map<Tid, Status>,
                           now: nat, since: map<Tid, nat>)

  datatype Call =
    | SendCall(bits: Bits)
    | RecvCall(t: Tid, want: Want, timeout: int)
    | Return(t: Tid)
    | Expire(t: Tid)
    | GiveUp(t: Tid)
    | Reset

  predicate Enabled(s: System, c: Call)
  {
    match c
    case SendCall(_) => forall t :: t in s.e.waiting ==> t in s.e.wants
    case RecvCall(t, want, _) => t !in s.e.waiting && t !in s.awake && t !in s.failed && Proper(want.option)
    case Return(t) => t in s.awake
    case Expire(t) => t in s.e.waiting && t in s.timeouts && s.timeouts[t] > 0
    case GiveUp(t) => t in s.failed
    case Reset => true
  }

  function Noted(awake: map<Tid, Bits>, ds: seq<Delivery>): map<Tid, Bits>
  {
    if ds == [] then awake else Noted(awake, ds[..|ds| - 1])[ds[|ds| - 1].t := ds[|ds| - 1].mask]
  }

  function AfterSend(s: System, bits: Bits): System
    requires forall t :: t in s.e.waiting ==> t in s.e.wants
  {
    var (e, ds) := SendSection(s.e, bits);
    s.(e := e, awake := Noted(s.awake, ds))
  }

  function AfterRecv(s: System, t: Tid, want: Want, timeout: int, o: Order): System
  {
    var (e, r) := RecvSection(s.e, t, want, timeout, o);
    var s' := s.(e := e, timeouts := s.timeouts[t := timeout]);
    if r.Waits? then s'.(now := s.now + 1, since := s.since[t := s.now]) else s'
  }

  /** Empty sets are refused before the section. */
  function Step(s: System, c: Call, o: Order): System
    requires Enabled(s, c)
  {
    match c
    case SendCall(bits) => if bits == {} then s else AfterSend(s, bits)
    case RecvCall(t, want, timeout) =>
      if want.bits == {} then s else AfterRecv(s, t, want, timeout, o)
    case Return(t) => s.(awake := s.awake - {t})
    case Expire(t) => s.(e := s.e.(waiting := Dropped(s.e.waiting, t)), failed := s.failed[t := Timeout])
    case GiveUp(t) => s.(failed := s.failed - {t})
    case Reset =>
      s.(e := s.e.(bits := {}, waiting := []), failed := s.failed + map t | t in s.e.waiting :: Failed)
  }

  /** A woken thread finds in its own field what it was sent. */
  ghost predicate Matches(awake: map<Tid, Bits>, wants: map<Tid, Want>)
  {
    forall t :: t in awake ==> t in wants && wants[t].bits == awake[t]
  }

  /** Woken threads are on the wait list no more. */
  ghost predicate Off(awake: map<Tid, Bits>, q: seq<Tid>)
  {
    forall t :: t in q ==> t !in awake
  }

  ghost predicate SystemInv(s: System)
  {
    Inv(s.e) && Matches(s.awake, s.e.wants) && Off(s.awake, s.e.waiting) && s.awake.Keys !! s.failed.Keys
    && forall t :: t in s.failed ==> t !in s.e.waiting
  }

  lemma VisitNotes(w: Walked, q: seq<Tid>, awake: map<Tid, Bits>)
    requires Between(w, q) && q != [] && Matches(Noted(awake, w.woken), w.wants) && Off(Noted(awake, w.woken), w.stay + q)
    ensures var w' := Visit(w, q[0]);
            Matches(Noted(awake, w'.woken), w'.wants) && Off(Noted(awake, w'.woken), w'.stay + q[1..])
  {
    hide Noted, Satisfied, Between;
    FirstAhead(w, q);
    var t, w' := q[0], Visit(w, q[0]);
    if Satisfied(w.wants[t], w.bits) {
      NotedAppend(awake, w.woken, w'.woken[|w.woken|]);
      assert forall u :: u in w.stay + q[1..] ==> u in w.stay + q && u != t;
    } else {
      assert w'.stay + q[1..] == w.stay + q;
    }
  }

  lemma FirstAhead(w: Walked, q: seq<Tid>)
    requires Between(w, q) && q != []
    ensures q[0] in w.wants && q[0] !in w.stay && q[0] !in q[1..]
  {
    SplitDistinct(w.stay, q);
  }

  lemma NotedAppend(awake: map<Tid, Bits>, ds: seq<Delivery>, d: Delivery)
    ensures Noted(awake, ds + [d]) == Noted(awake, ds)[d.t := d.mask]
  {
    assert (ds + [d])[..|ds|] == ds;
  }

  lemma {:induction false} WalkNotes(w: Walked, q: seq<Tid>, awake: map<Tid, Bits>, failed: map<Tid, Status>)
    requires Between(w, q) && Matches(Noted(awake, w.woken), w.wants) && Off(Noted(awake, w.woken), w.stay + q)
    requires Noted(awake, w.woken).Keys !! failed.Keys && forall t :: t in w.stay + q ==> t !in failed
    ensures var w' := Walk(w, q);
            && Matches(Noted(awake, w'.woken), w'.wants) && Off(Noted(awake, w'.woken), w'.stay)
            && Noted(awake, w'.woken).Keys !! failed.Keys && forall t :: t in w'.stay ==> t !in failed
    decreases |q|
  {
    if q == [] {
      assert w.stay + q == w.stay;
    } else {
      var w' := Visit(w, q[0]);
      assert q[0] in w.stay + q;
      VisitNotes(w, q, awake);
      VisitKeeps(w, q);
      if Satisfied(w.wants[q[0]], w.bits) {
        assert w'.woken[..|w.woken|] == w.woken;
        assert forall t :: t in w.stay + q[1..] ==> t in w.stay + q;
      } else {
        assert w'.stay + q[1..] == w.stay + q;
      }
      WalkNotes(w', q[1..], awake, failed);
    }
  }

  /** Every thread that was sent something is awake with it. */
  ghost predicate Awakened(awake: map<Tid, Bits>, ds: seq<Delivery>)
  {
    forall d :: d in ds ==> d.t in awake && awake[d.t] == d.mask
  }

  lemma {:induction false} WalkAwakens(w: Walked, q: seq<Tid>, awake: map<Tid, Bits>)
    requires Between(w, q) && Matches(Noted(awake, w.woken), w.wants) && Off(Noted(awake, w.woken), w.stay + q)
    requires Awakened(Noted(awake, w.woken), w.woken)
    ensures var w' := Walk(w, q); Awakened(Noted(awake, w'.woken), w'.woken)
    decreases |q|
  {
    hide Noted, Satisfied;
    if q != [] {
      var t, w' := q[0], Visit(w, q[0]);
      FirstAhead(w, q);
      VisitNotes(w, q, awake);
      VisitKeeps(w, q);
      assert t in w.stay + q;
      if Satisfied(w.wants[t], w.bits) {
        NotedAppend(awake, w.woken, w'.woken[|w.woken|]);
        assert forall d :: d in w'.woken ==> d == w'.woken[|w.woken|] || d in w.woken;
      }
      WalkAwakens(w', q[1..], awake);
    }
  }

  lemma SendAwakens(s: System, bits: Bits)
    requires SystemInv(s)
    ensures Awakened(AfterSend(s, bits).awake, SendSection(s.e, bits).1)
  {
    WalkStarts(s.e, s.e.bits + bits);
    assert [] + s.e.waiting == s.e.waiting;
    WalkAwakens(Walked(s.e.bits + bits, [], [], s.e.wants), s.e.waiting, s.awake);
  }

  lemma SendKeepsSystem(s: System, bits: Bits)
    requires SystemInv(s)
    ensures SystemInv(AfterSend(s, bits))
  {
    SendKeepsInv(s.e, bits);
    WalkStarts(s.e, s.e.bits + bits);
    assert [] + s.e.waiting == s.e.waiting;
    WalkNotes(Walked(s.e.bits + bits, [], [], s.e.wants), s.e.waiting, s.awake, s.failed);
  }

  lemma StepKeepsInv(s: System, c: Call, o: Order)
    requires SystemInv(s) && Enabled(s, c)
    ensures SystemInv(Step(s, c, o))
  {
    hide SystemInv, AfterSend, AfterRecv;
    match c
    case SendCall(bits) => if bits != {} { SendKeepsSystem(s, bits); }
    case RecvCall(t, want, timeout) => RecvKeepsSystem(s, t, want, timeout, o);
    case Return(t) => LeaveKeepsSystem(s, t);
    case Expire(t) => ExpireKeepsSystem(s, t);
    case GiveUp(t) => LeaveKeepsSystem(s, t);
    case Reset => ResetKeepsSystem(s);
  }

  lemma RecvKeepsSystem(s: System, t: Tid, want: Want, timeout: int, o: Order)
    requires SystemInv(s) && t !in s.e.waiting && t !in s.awake && t !in s.failed && Proper(want.option)
    ensures SystemInv(AfterRecv(s, t, want, timeout, o))
  {
    hide Inv, Satisfied, Enqueue;
    RecvKeepsInv(s.e, t, want, timeout, o);
    EnqueueElements(o.flag, s.e.waiting, t, o.prio);
  }

  lemma LeaveKeepsSystem(s: System, t: Tid)
    requires SystemInv(s)
    ensures SystemInv(s.(awake := s.awake - {t})) && SystemInv(s.(failed := s.failed - {t}))
  {
    hide Inv;
  }

  lemma ExpireKeepsSystem(s: System, t: Tid)
    requires SystemInv(s) && t in s.e.waiting
    ensures SystemInv(s.(e := s.e.(waiting := Dropped(s.e.waiting, t)), failed := s.failed[t := Timeout]))
  {
    DroppedMembers(s.e.waiting, t);
  }

  lemma ResetKeepsSystem(s: System)
    requires SystemInv(s)
    ensures SystemInv(s.(e := s.e.(bits := {}, waiting := []), failed := s.failed + map t | t in s.e.waiting :: Failed))
  {
  }

  function Initial(): System
  {
    System(Event({}, [], map[]), map[], map[], map[], 0, map[])
  }

  /** The calls of the system are the sections of the object; an empty set is refused, woken threads have what they were
      sent, and nothing else touches the bits. */
  lemma StepIsSection(s: System, c: Call, o: Order)
    requires SystemInv(s) && Enabled(s, c)
    ensures var s' := Step(s, c, o);
            match c
            case SendCall(bits) =>
              if bits == {} then s' == s
              else var (e, ds) := SendSection(s.e, bits); s'.e == e && Awakened(s'.awake, ds)
            case RecvCall(t, want, timeout) =>
              if want.bits == {} then s' == s
              else
                var (e, r) := RecvSection(s.e, t, want, timeout, o);
                s'.e == e && (r.Waits? <==> t in s'.e.waiting) && s'.timeouts[t] == timeout
            case Return(t) => s'.e == s.e && t !in s'.awake
            case Expire(t) => s'.e.bits == s.e.bits && t !in s'.e.waiting && t in s'.failed && s'.failed[t] == Timeout
            case GiveUp(t) => s'.e == s.e && t !in s'.failed
            case Reset =>
              && s'.e.bits == {} && s'.e.waiting == []
              && forall t :: t in s.e.waiting ==> t in s'.failed && s'.failed[t] == Failed
  {
    hide Unsatisfied, Matches, SendSection, Awakened;
    match c
    case SendCall(bits) => SendAwakens(s, bits);
    case RecvCall(t, _, _) => EnqueueElements(o.flag, s.e.waiting, t, o.prio);
    case Expire(t) => DroppedMembers(s.e.waiting, t);
    case _ =>
  }

  /** The threads that wait are in line. */
  ghost predicate Lined(s: System, o: Order)
  {
    InLine(s.e.waiting, s.since, o) && Arrived(s.e.waiting, s.since, s.now)
  }

  /** The walk takes threads out and leaves the others in line. */
  lemma {:induction false} WalkLines(w: Walked, q: seq<Tid>, since: map<Tid, nat>, now: nat, o: Order)
    requires forall t :: t in q ==> t in w.wants
    requires InLine(w.stay + q, since, o) && Arrived(w.stay + q, since, now)
    ensures InLine(Walk(w, q).stay, since, o) && Arrived(Walk(w, q).stay, since, now)
    decreases |q|
  {
    hide InLine, Arrived, Satisfied;
    if q == [] {
      assert w.stay + q == w.stay;
    } else {
      var w' := Visit(w, q[0]);
      if Satisfied(w.wants[q[0]], w.bits) {
        WithoutInLine(w.stay + q, |w.stay|, since, now, o);
        assert Without(w.stay + q, |w.stay|) == w'.stay + q[1..];
      } else {
        assert w.stay + q == w'.stay + q[1..];
      }
      WalkLines(w', q[1..], since, now, o);
    }
  }

  lemma StepLines(s: System, c: Call, o: Order)
    requires Lined(s, o) && Enabled(s, c)
    ensures Lined(Step(s, c, o), o)
  {
    hide InLine, Arrived, Walk;
    match c
    case SendCall(bits) =>
      assert [] + s.e.waiting == s.e.waiting;
      WalkLines(Walked(s.e.bits + bits, [], [], s.e.wants), s.e.waiting, s.since, s.now, o);
    case RecvCall(t, want, timeout) => EnqueueInLine(s.e.waiting, t, s.since, s.now, o);
    case Return(t) =>
    case Expire(t) => DroppedInLine(s.e.waiting, t, s.since, s.now, o);
    case GiveUp(t) =>
    case Reset => NobodyInLine(s.since, s.now, o);
  }

  lemma NobodyInLine(since: map<Tid, nat>, now: nat, o: Order)
    ensures InLine([], since, o) && Arrived([], since, now)
  {
  }

  /** In every interleaving the wait list is in the order in which sends will serve it. */
  lemma {:induction false} EveryRunLines(ss: seq<System>, cs: seq<Call>, o: Order, n: nat)
    requires Run(ss, cs, o) && n < |ss|
    ensures Lined(ss[n], o)
  {
    hide Enabled, Step, InLine, Arrived;
    NobodyInLine(map[], 0, o);
    if n > 0 {
      EveryRunLines(ss, cs, o, n - 1);
      assert Next(ss[n - 1], cs[n - 1], ss[n], o);
      StepLines(ss[n - 1], cs[n - 1], o);
    }
  }

  ghost predicate Next(s: System, c: Call, s': System, o: Order)
  {
    Enabled(s, c) && s' == Step(s, c, o)
  }

  ghost predicate Run(ss: seq<System>, cs: seq<Call>, o: Order)
  {
    && |ss| == |cs| + 1 && ss[0] == Initial()
    && forall i, j :: 0 <= i && j == i + 1 && j < |ss| ==> Next(ss[i], cs[i], ss[j], o)
  }

  /** In every interleaving of sends, receives, wake-ups, timeouts and resets. */
  lemma {:induction false} EveryRunKeepsInv(ss: seq<System>, cs: seq<Call>, o: Order, n: nat)
    requires Run(ss, cs, o) && n < |ss|
    ensures SystemInv(ss[n])
  {
    if n > 0 {
      EveryRunKeepsInv(ss, cs, o, n - 1);
      assert Next(ss[n - 1], cs[n - 1], ss[n], o);
      StepKeepsInv(ss[n - 1], cs[n - 1], o);
    }
  }

  // ----- the object in memory -----

  /** struct rt_event, with the event_set and event_info fields of the threads. */
  class EventObject {
    const o: Order
    var bits: Bits
    var waiting: seq<Tid>
    var wants: map<Tid, Want>

    ghost function Abs(): Event
      reads this
    {
      Event(bits, waiting, wants)
    }

    /** rt_event_init. */
    constructor (o: Order)
      ensures Inv(Abs()) && this.o == o && bits == {} && waiting == []
    {
      this.o, bits, waiting, wants := o, {}, [], map[];
    }

    /** One round of the walk, at the thread in place `n`. */
    method VisitRound(n: nat, woken: seq<Delivery>) returns (n': nat, woken': seq<Delivery>)
      requires n < |waiting| && waiting[n] in wants && Proper(wants[waiting[n]].option)
      modifies this
      ensures n' <= |waiting| && waiting[n'..] == old(waiting)[n + 1..]
      ensures Walked(bits, waiting[..n'], woken', wants)
           == Visit(old(Walked(bits, waiting[..n], woken, wants)), old(waiting[n]))
    {
      ghost var all := waiting;
      var t := waiting[n];
      var want := wants[t];
      var satisfied := false;
      if want.option.and {
        if want.bits * bits == want.bits {
          satisfied := true;
        }
      } else if want.option.or {
        if want.bits * bits != {} {
          want := want.(bits := want.bits * bits);
          wants := wants[t := want];
          satisfied := true;
        }
      } else {
        assert false;
      }
      if satisfied {
        if want.option.clear {
          bits := bits - want.bits;
        }
        waiting := waiting[..n] + waiting[n + 1..];
        assert waiting[..n] == all[..n] && wants[t := want] == wants;
        return n, woken + [Delivery(t, want.bits, want.option.clear)];
      }
      assert all[..n] + [t] == all[..n + 1];
      return n + 1, woken;
    }

    /** rt_event_send; `ok` is RT_EOK, and `woken` are the threads resumed, with what they were given. */
    method Send(sent: Bits) returns (ok: bool, woken: seq<Delivery>)
      requires Inv(Abs())
      modifies this
      ensures Inv(Abs()) && ok == (sent != {})
      ensures if ok then (Abs(), woken) == SendSection(old(Abs()), sent) else Abs() == old(Abs()) && woken == []
    {
      woken := [];
      if sent == {} {
        return false, woken;
      }
      SendKeepsInv(Abs(), sent);
      WalkStarts(Abs(), bits + sent);
      bits := bits + sent;
      ghost var start := Walked(bits, [], [], wants);
      var n := 0;
      assert waiting[..n] == [] && waiting[n..] == waiting;
      while n < |waiting|
        invariant 0 <= n <= |waiting|
        invariant Between(Walked(bits, waiting[..n], woken, wants), waiting[n..])
        invariant Walk(Walked(bits, waiting[..n], woken, wants), waiting[n..]) == Walk(start, old(waiting))
        decreases |waiting[n..]|
      {
        ghost var w, q := Walked(bits, waiting[..n], woken, wants), waiting[n..];
        assert q[0] == waiting[n] && q[1..] == waiting[n + 1..];
        VisitKeeps(w, q);
        n, woken := VisitRound(n, woken);
      }
      assert waiting[..n] == waiting && waiting[n..] == [];
      return true, woken;
    }

    /** The section of rt_event_recv, for a non-empty set. */
    method RecvRound(t: Tid, want: Want, timeout: int) returns (r: Received)
      requires Inv(Abs()) && t !in waiting && Proper(want.option)
      modifies this
      ensures Inv(Abs()) && (Abs(), r) == RecvSection(old(Abs()), t, want, timeout, o)
    {
      RecvKeepsInv(Abs(), t, want, timeout, o);
      var satisfied := false;
      if want.option.and {
        if bits * want.bits == want.bits {
          satisfied := true;
        }
      } else if want.option.or {
        if bits * want.bits != {} {
          satisfied := true;
        }
      } else {
        assert false;
      }
      assert want.bits * bits == bits * want.bits;
      if satisfied {
        r := Got(bits * want.bits);
        wants := wants[t := Want(bits * want.bits, want.option)];
        if want.option.clear {
          bits := bits - want.bits;
        }
      } else if timeout == 0 {
        r := TimedOut;
      } else {
        wants := wants[t := want];
        waiting := Enqueue(o.flag, waiting, t, o.prio);
        r := Waits;
      }
    }

    /** rt_event_control(RT_IPC_CMD_RESET); `woken` are the threads whose error is set to -RT_ERROR. */
    method Reset() returns (woken: seq<Tid>)
      modifies this
      ensures Inv(Abs()) && Abs() == Event({}, [], old(wants)) && woken == old(waiting)
    {
      woken := [];
      while waiting != []
        invariant woken + waiting == old(waiting) && wants == old(wants)
        decreases |waiting|
      {
        woken := woken + [waiting[0]];
        waiting := waiting[1..];
      }
      bits := {};
    }
  }
}
