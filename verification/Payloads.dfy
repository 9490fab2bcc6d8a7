/** The bytes of a message pool: behind the link of each node, its payload. */
module Payloads {
  type Msg = seq<int>

  /** sizeof(struct rt_mq_message). */
  const NODE := 4

  /** Where the payload of node `n` is in the pool. */
  function PayloadAt(n: nat, size: nat): nat
  {
    if n == 0 then NODE else PayloadAt(n - 1, size) + size + NODE
  }

  lemma {:induction false} PayloadAtIs(n: nat, size: nat)
    ensures PayloadAt(n, size) == n * (size + NODE) + NODE
  {
    if n > 0 {
      PayloadAtIs(n - 1, size);
      assert n * (size + NODE) == (n - 1) * (size + NODE) + (size + NODE);
    }
  }

  /** A pool of this length has room for `max` nodes. */
  predicate FitsPool(max: nat, size: nat, length: nat)
  {
    PayloadAt(max, size) <= length + NODE
  }

  lemma {:induction false} PayloadsApart(m: nat, n: nat, size: nat)
    requires m < n
    ensures PayloadAt(m, size) + size + NODE <= PayloadAt(n, size)
    decreases n
  {
    if m < n - 1 { PayloadsApart(m, n - 1, size); }
  }

  lemma PayloadInside(n: int, max: nat, size: nat)
    requires 0 <= n < max
    ensures PayloadAt(n, size) + size + NODE <= PayloadAt(max, size)
  {
    PayloadsApart(n, max, size);
  }

  /** The payload of node `n`. */
  function BytesOf(pool: seq<int>, n: int, max: nat, size: nat): (r: Msg)
    requires 0 <= n < max && FitsPool(max, size, |pool|)
    ensures |r| == size
  {
    PayloadInside(n, max, size);
    pool[PayloadAt(n, size)..PayloadAt(n, size) + size]
  }

  ghost function ContentOf(pool: seq<int>, max: nat, size: nat): map<int, Msg>
    requires FitsPool(max, size, |pool|)
  {
    map n | 0 <= n < max :: BytesOf(pool, n, max, size)
  }

  /** A shorter message leaves the rest of the node as it was. */
  function Written(content: map<int, Msg>, n: int, msg: Msg): map<int, Msg>
    requires n in content && |msg| <= |content[n]|
  {
    content[n := msg + content[n][|msg|..]]
  }

  /** The pool `now` has the message in node `n`, and all else is as it was. */
  ghost predicate Copied(was: seq<int>, now: seq<int>, n: int, msg: Msg, max: nat, size: nat)
  {
    && |now| == |was| && FitsPool(max, size, |was|) && 0 <= n < max && |msg| <= size
    && ContentOf(now, max, size) == Written(ContentOf(was, max, size), n, msg)
  }

  /** `now` is `was` with `msg` at `at`. */
  ghost predicate Patched(was: seq<int>, now: seq<int>, at: nat, msg: Msg)
  {
    && |now| == |was| && at + |msg| <= |was|
    && forall k :: 0 <= k < |now| ==> now[k] == if at <= k < at + |msg| then msg[k - at] else was[k]
  }

  method CopyTo(pool: array<int>, at: nat, msg: Msg)
    requires at + |msg| <= pool.Length
    modifies pool
    ensures Patched(old(pool[..]), pool[..], at, msg)
  {
    ghost var was := pool[..];
    var i := 0;
    while i < |msg|
      invariant 0 <= i <= |msg|
      invariant forall k :: 0 <= k < pool.Length ==> pool[k] == if at <= k < at + i then msg[k - at] else was[k]
    {
      pool[at + i] := msg[i];
      i := i + 1;
    }
  }

  lemma OtherBytes(was: seq<int>, now: seq<int>, n: int, m: int, msg: Msg, max: nat, size: nat)
    requires 0 <= n < max && 0 <= m < max && m != n && |msg| <= size && FitsPool(max, size, |was|)
    requires Patched(was, now, PayloadAt(n, size), msg)
    ensures BytesOf(now, m, max, size) == BytesOf(was, m, max, size)
  {
    PayloadInside(m, max, size);
    if m < n { PayloadsApart(m, n, size); } else { PayloadsApart(n, m, size); }
  }

  lemma OwnBytes(was: seq<int>, now: seq<int>, n: int, msg: Msg, max: nat, size: nat)
    requires 0 <= n < max && |msg| <= size && FitsPool(max, size, |was|)
    requires Patched(was, now, PayloadAt(n, size), msg)
    ensures BytesOf(now, n, max, size) == msg + BytesOf(was, n, max, size)[|msg|..]
  {
    PayloadInside(n, max, size);
  }

  /** Bytes copied to the payload of a node are the message in that node, and leave all other nodes alone. */
  lemma WrittenByCopy(was: seq<int>, now: seq<int>, n: int, msg: Msg, max: nat, size: nat)
    requires 0 <= n < max && |msg| <= size && FitsPool(max, size, |was|)
    requires Patched(was, now, PayloadAt(n, size), msg)
    ensures Copied(was, now, n, msg, max, size)
  {
    OwnBytes(was, now, n, msg, max, size);
    forall m | 0 <= m < max && m != n ensures BytesOf(now, m, max, size) == BytesOf(was, m, max, size) {
      OtherBytes(was, now, n, m, msg, max, size);
    }
  }
}
