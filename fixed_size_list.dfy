/** FixedSizeList<T, SIZE> of the kernel game
    (src/fragments/f_main/f_app_dialog/f_kernel/game_logic.hpp): a history
    that keeps the last SIZE elements pushed, read from either end or by
    distance from the newest. */
module KernelGameLogic {
  import opened Wrappers

  datatype ListError = OutOfRange

  /** The last n elements of s, in order (all of s when it is shorter). */
  function LastN<T>(s: seq<T>, n: nat): (r: seq<T>)
    ensures |r| == if |s| <= n then |s| else n
    ensures forall k :: 0 <= k < |r| ==> r[k] == s[|s| - |r| + k]
  {
    if |s| <= n then s else s[|s| - n..]
  }

  /** Pushing onto the kept suffix and dropping the front when it grows
      past n keeps exactly the last n elements of the longer history. */
  lemma LastNPush<T>(s: seq<T>, e: T, n: nat)
    ensures var l := LastN(s, n) + [e];
      LastN(s + [e], n) == (if |l| > n then l[1..] else l)
  {
    var l := LastN(s, n) + [e];
    var t := s + [e];
    if |t| > n && |s| > n {
      assert l[1..] == t[|t| - n..];
    } else if |t| > n {
      assert |s| == n;
      assert l[1..] == t[1..];
    }
  }

  class FixedSizeList<T> {
    /** SIZE. */
    const capacity: nat
    /** m_list, front (oldest) to back (newest). */
    var list: seq<T>
    /** Everything ever pushed. */
    ghost var pushed: seq<T>

    ghost predicate Valid()
      reads this
    {
      list == LastN(pushed, capacity)
    }

    constructor (size: nat)
      ensures Valid() && capacity == size && pushed == [] && list == []
    {
      capacity := size;
      list := [];
      pushed := [];
    }

    /** push: append, then drop the oldest if the list outgrew SIZE. */
    method Push(e: T)
      requires Valid()
      modifies this
      ensures Valid() && pushed == old(pushed) + [e]
      ensures |list| <= capacity
      ensures capacity > 0 ==> list[|list| - 1] == e
      ensures |list| == if |old(list)| < capacity then |old(list)| + 1 else capacity
    {
      LastNPush(pushed, e, capacity);
      list := list + [e];
      if |list| > capacity {
        list := list[1..];
      }
      pushed := pushed + [e];
    }

    /** size: the number of elements pushed, up to SIZE. */
    function Size(): (n: nat)
      requires Valid()
      reads this
      ensures n == if |pushed| <= capacity then |pushed| else capacity
    {
      |list|
    }

    /** oldest: the element pushed Size() pushes ago. */
    function Oldest(): (e: T)
      requires Valid() && |list| > 0
      reads this
      ensures e == pushed[|pushed| - Size()]
    {
      list[0]
    }

    /** newest: the element pushed last. */
    function Newest(): (e: T)
      requires Valid() && |list| > 0
      reads this
      ensures e == pushed[|pushed| - 1]
    {
      list[|list| - 1]
    }

    /** nthNewest: out of range when n >= size(); otherwise walk the list
        from the front to the element with n elements after it. */
    method NthNewest(n: nat) returns (r: Result<T, ListError>)
      requires Valid()
      ensures r.Err? <==> n >= Size()
      ensures r.Err? ==> r.error == OutOfRange
      ensures r.Ok? ==> r.value == pushed[|pushed| - 1 - n]
      ensures r.Ok? && n == 0 ==> r.value == Newest()
      ensures r.Ok? && n == Size() - 1 ==> r.value == Oldest()
    {
      if n >= |list| {
        return Err(OutOfRange);
      }
      var i := 0;
      while n + 1 + i != |list|
        invariant i <= |list| - 1 - n
        decreases |list| - 1 - n - i
      {
        i := i + 1;
      }
      r := Ok(list[i]);
    }
  }
}
