/** The byte-moving routines of kservice.c, over one array of bytes indexed by address. */
module Bytes {
  import opened Words

  ghost predicate Copied(now: seq<Byte>, was: seq<Byte>, dst: int, src: int, n: int)
    requires |now| == |was| && 0 <= dst && dst + n <= |was| && 0 <= src && src + n <= |was|
  {
    && (forall i :: dst <= i < dst + n ==> now[i] == was[src + (i - dst)])
    && (forall i :: 0 <= i < |was| && !(dst <= i < dst + n) ==> now[i] == was[i])
  }

  /** One `*aligned_dst++ = *aligned_src++` of rt_memcpy: four bytes read, then four written. */
  method CopyWord(a: array<Byte>, dst: int, src: int, done: int, ghost was: seq<Byte>)
    requires 0 <= done && |was| == a.Length
    requires 0 <= dst && dst + done + 4 <= a.Length && 0 <= src && src + done + 4 <= a.Length
    requires dst + done + 4 <= src || src + done + 4 <= dst
    requires Copied(a[..], was, dst, src, done)
    modifies a
    ensures Copied(a[..], was, dst, src, done + 4)
  {
    var s, d := src + done, dst + done;
    var b0, b1, b2, b3 := a[s], a[s + 1], a[s + 2], a[s + 3];
    a[d], a[d + 1], a[d + 2], a[d + 3] := b0, b1, b2, b3;
  }

  /** rt_memcpy: blocks of four words, then words, then bytes when both ends are word-aligned. */
  method MemCpy(a: array<Byte>, dst: int, src: int, count: int)
    requires 0 <= count && 0 <= dst && dst + count <= a.Length && 0 <= src && src + count <= a.Length
    requires dst + count <= src || src + count <= dst
    modifies a
    ensures Copied(a[..], old(a[..]), dst, src, count)
  {
    var done := 0;
    if count >= 16 && src % 4 == 0 && dst % 4 == 0 {
      while count - done >= 16
        invariant 0 <= done <= count
        invariant Copied(a[..], old(a[..]), dst, src, done)
      {
        CopyWord(a, dst, src, done, old(a[..]));
        CopyWord(a, dst, src, done + 4, old(a[..]));
        CopyWord(a, dst, src, done + 8, old(a[..]));
        CopyWord(a, dst, src, done + 12, old(a[..]));
        done := done + 16;
      }
      while count - done >= 4
        invariant 0 <= done <= count
        invariant Copied(a[..], old(a[..]), dst, src, done)
      {
        CopyWord(a, dst, src, done, old(a[..]));
        done := done + 4;
      }
    }
    while done < count
      invariant 0 <= done <= count
      invariant Copied(a[..], old(a[..]), dst, src, done)
    {
      a[dst + done] := a[src + done];
      done := done + 1;
    }
  }

  /** rt_memmove: any overlap is allowed; the copy runs downwards when the target starts inside the source. */
  method MemMove(a: array<Byte>, dst: int, src: int, n: int)
    requires 0 <= n && 0 <= dst && dst + n <= a.Length && 0 <= src && src + n <= a.Length
    modifies a
    ensures Copied(a[..], old(a[..]), dst, src, n)
  {
    if src < dst < src + n {
      var left := n;
      while left > 0
        invariant 0 <= left <= n
        invariant forall i :: dst + left <= i < dst + n ==> a[i] == old(a[src + (i - dst)])
        invariant forall i :: 0 <= i < a.Length && !(dst + left <= i < dst + n) ==> a[i] == old(a[i])
      {
        left := left - 1;
        a[dst + left] := a[src + left];
      }
    } else {
      var done := 0;
      while done < n
        invariant 0 <= done <= n
        invariant Copied(a[..], old(a[..]), dst, src, done)
      {
        a[dst + done] := a[src + done];
        done := done + 1;
      }
    }
  }
}
