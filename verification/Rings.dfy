/** A circular doubly linked list kept in two link fields, seen as the sequence of its nodes from a
    fixed node on. */
module Rings {

  ghost predicate Distinct<T>(s: seq<T>)
  {
    forall i, j :: 0 <= i < j < |s| ==> s[i] != s[j]
  }

  ghost predicate Ring(nx: map<int, int>, pv: map<int, int>, s: seq<int>)
  {
    && s != [] && Distinct(s)
    && (forall i :: 0 <= i < |s| ==> s[i] in nx && s[i] in pv)
    && (forall i, j :: 0 <= i && j == i + 1 && j < |s| ==> nx[s[i]] == s[j] && pv[s[j]] == s[i])
    && nx[s[|s| - 1]] == s[0] && pv[s[0]] == s[|s| - 1]
  }

  function Without<T>(s: seq<T>, k: nat): seq<T>
    requires k < |s|
  {
    s[..k] + s[k + 1..]
  }

  ghost function Elements<T>(s: seq<T>): set<T>
  {
    set x | x in s
  }

  lemma DistinctInsert<T>(s: seq<T>, k: nat, x: T)
    requires Distinct(s) && k <= |s| && x !in s
    ensures Distinct(s[..k] + [x] + s[k..])
  {
    var t := s[..k] + [x] + s[k..];
    forall i, j | 0 <= i < j < |t| ensures t[i] != t[j] {
      if i > k { assert t[i] == s[i - 1]; }
      if j > k { assert t[j] == s[j - 1]; }
    }
  }

  lemma DistinctTail<T>(head: T, s: seq<T>)
    requires Distinct([head] + s)
    ensures Distinct(s) && head !in s
  {
    var t := [head] + s;
    forall i, j | 0 <= i < j < |s| ensures s[i] != s[j] {
      assert t[i + 1] != t[j + 1];
    }
    forall i | 0 <= i < |s| ensures s[i] != head {
      assert t[0] != t[i + 1];
    }
  }

  lemma HeadTail<T>(q: seq<T>)
    requires Distinct(q) && q != []
    ensures Distinct(q[1..]) && q[0] !in q[1..]
    ensures forall x :: x in q <==> x == q[0] || x in q[1..]
  {
    assert q == [q[0]] + q[1..];
    DistinctTail(q[0], q[1..]);
  }

  lemma DistinctEnds<T>(q: seq<T>, x: T)
    requires Distinct(q) && x !in q
    ensures Distinct([x] + q) && Distinct(q + [x])
  {
  }

  lemma DistinctWithout<T>(s: seq<T>, k: nat)
    requires Distinct(s) && k < |s|
    ensures Distinct(Without(s, k)) && Elements(Without(s, k)) == Elements(s) - {s[k]}
  {
    var r := Without(s, k);
    forall x | x in s && x != s[k] ensures x in r {
      var i :| 0 <= i < |s| && s[i] == x;
      assert x == if i < k then r[i] else r[i - 1];
    }
  }

  /** Linking `x` in behind the first node. */
  lemma RingPush(nx: map<int, int>, pv: map<int, int>, s: seq<int>, x: int)
    requires Ring(nx, pv, s) && x !in s
    ensures nx[s[0]] in pv
    ensures Ring(nx[x := nx[s[0]]][s[0] := x], pv[x := s[0]][nx[s[0]] := x], [s[0], x] + s[1..])
  {
    var t := [s[0], x] + s[1..];
    assert forall i :: 2 <= i < |t| ==> t[i] == s[i - 1];
    assert |s| > 1 ==> nx[s[0]] == s[1];
  }

  /** Unlinking node `k`; its own links may be overwritten at will. */
  lemma RingRemove(nx: map<int, int>, pv: map<int, int>, nx': map<int, int>, pv': map<int, int>, s: seq<int>, k: nat)
    requires Ring(nx, pv, s) && 0 < k < |s|
    requires forall a :: a in s && a != s[k] ==> a in nx' && nx'[a] == if a == pv[s[k]] then nx[s[k]] else nx[a]
    requires forall a :: a in s && a != s[k] ==> a in pv' && pv'[a] == if a == nx[s[k]] then pv[s[k]] else pv[a]
    ensures Ring(nx', pv', Without(s, k))
  {
    var t, n := Without(s, k), if k + 1 < |s| then k + 1 else 0;
    DistinctWithout(s, k);
    assert pv[s[k]] == s[k - 1] && nx[s[k]] == s[n];
    forall i | 0 <= i < |s| && i != k
      ensures s[i] in nx' && nx'[s[i]] == if i == k - 1 then s[n] else nx[s[i]]
      ensures s[i] in pv' && pv'[s[i]] == if i == n then s[k - 1] else pv[s[i]]
    {
      var a := s[i];
      assert a in s && a != s[k] && (a == s[k - 1] <==> i == k - 1) && (a == s[n] <==> i == n);
    }
    assert forall i :: 0 <= i < |t| ==> t[i] == s[if i < k then i else i + 1];
  }

  ghost function IndexOf<T>(s: seq<T>, x: T): (k: nat)
    requires x in s
    ensures k < |s| && s[k] == x
  {
    var k :| 0 <= k < |s| && s[k] == x;
    k
  }

  /** The two writes with which the kernel takes a node out of a list. */
  lemma RingUnlinkAt(nx: map<int, int>, pv: map<int, int>, r: seq<int>, k: nat)
    requires Ring(nx, pv, r) && 0 < k < |r|
    ensures var x := r[k];
            && x in nx && x in pv && nx[x] != x && nx[x] in pv && pv[x] in nx
            && Ring(nx[pv[x] := nx[x]], pv[nx[x] := pv[x]], Without(r, k))
  {
    var x, n := r[k], if k + 1 < |r| then k + 1 else 0;
    assert nx[x] == r[n] && pv[x] == r[k - 1];
    RingRemove(nx, pv, nx[pv[x] := nx[x]], pv[nx[x] := pv[x]], r, k);
  }

  lemma WithoutTail<T>(head: T, s: seq<T>, k: nat)
    requires k < |s|
    ensures Without([head] + s, k + 1) == [head] + Without(s, k)
  {
  }

  /** Taking `x` out of the list that hangs off `head`. */
  lemma RingUnlink(nx: map<int, int>, pv: map<int, int>, head: int, s: seq<int>, x: int)
    requires Ring(nx, pv, [head] + s) && x in s
    ensures x in nx && x in pv && nx[x] != x && nx[x] in pv && pv[x] in nx
    ensures Ring(nx[pv[x] := nx[x]], pv[nx[x] := pv[x]], [head] + Without(s, IndexOf(s, x)))
    ensures Elements(Without(s, IndexOf(s, x))) == Elements(s) - {x}
  {
    var k := IndexOf(s, x);
    assert ([head] + s)[k + 1] == x;
    RingUnlinkAt(nx, pv, [head] + s, k + 1);
    WithoutTail(head, s, k);
    DistinctTail(head, s);
    DistinctWithout(s, k);
  }

  /** Following the links from `head` visits the list in order and comes back. */
  lemma RingNext(nx: map<int, int>, pv: map<int, int>, head: int, s: seq<int>, j: nat)
    requires Ring(nx, pv, [head] + s) && j <= |s|
    ensures head in nx && (j > 0 ==> s[j - 1] in nx)
    ensures nx[if j > 0 then s[j - 1] else head] == if j < |s| then s[j] else head
  {
    var r := [head] + s;
    assert r[j] == if j > 0 then s[j - 1] else head;
    assert r[0] == head;
    if j < |s| { assert r[j + 1] == s[j]; }
  }
}
