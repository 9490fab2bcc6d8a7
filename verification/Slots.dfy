/** A pool cut into slots of equal size, some of which are linked into a list that ends in a null pointer. */
module Slots {
  import opened Rings

  /** RT_NULL among slot numbers. */
  const NIL := -1

  /** The nodes of `s`, linked from `p` on and ended by NIL. */
  ghost predicate Chained(nx: seq<int>, p: int, s: seq<int>)
  {
    && p == (if s == [] then NIL else s[0])
    && (forall i :: 0 <= i < |s| ==> 0 <= s[i] < |nx|)
    && (forall i, j :: 0 <= i && j == i + 1 && j < |s| ==> nx[s[i]] == s[j])
    && (s != [] ==> nx[s[|s| - 1]] == NIL)
  }

  lemma ChainedElsewhere(nx: seq<int>, p: int, s: seq<int>, n: int, v: int)
    requires Chained(nx, p, s) && 0 <= n < |nx| && n !in s
    ensures Chained(nx[n := v], p, s)
  {
  }

  lemma ChainedPush(nx: seq<int>, p: int, s: seq<int>, n: int)
    requires Chained(nx, p, s) && 0 <= n < |nx| && n !in s
    ensures Chained(nx[n := p], n, [n] + s)
  {
    ChainedElsewhere(nx, p, s, n, p);
  }

  lemma ChainedPop(nx: seq<int>, p: int, s: seq<int>)
    requires Chained(nx, p, s) && s != []
    ensures Chained(nx, nx[p], s[1..])
  {
  }

  lemma ChainedAppend(nx: seq<int>, p: int, s: seq<int>, n: int)
    requires Chained(nx, p, s) && 0 <= n < |nx| && n !in s && Distinct(s) && nx[n] == NIL
    ensures s == [] ==> Chained(nx, n, s + [n])
    ensures s != [] ==> Chained(nx[s[|s| - 1] := n], p, s + [n])
  {
  }

  lemma MulMonotone(a: nat, b: nat, c: nat)
    requires a <= b
    ensures a * c <= b * c
  {
  }
}
