/**
 * The three `LoadBalance` strategies: each picks one address out of the
 * list discovery returned (a null list is `None`), and answers null when
 * there is nothing to pick from.
 */
module LoadBalancing {
  import opened Wrappers
  import opened JavaLang
  import opened RpcModel

  // ---------------------------------------------------------------------------
  // Round robin

  /** The cursor after one multi-address pick over `n` addresses. */
  function NextCursor(c: int, n: nat): (next: nat)
    requires 0 <= c && n >= 2
    ensures next < n
  {
    (c + 1) % n
  }

  /** The indices picked by `k` consecutive selections over the same `n` addresses, from cursor `c`. */
  function Picks(c: nat, n: nat, k: nat): (s: seq<nat>)
    requires n >= 2
    ensures |s| == k
    ensures forall j :: 0 <= j < k ==> s[j] < n
    decreases k
  {
    if k == 0 then [] else [NextCursor(c, n)] + Picks(NextCursor(c, n), n, k - 1)
  }

  /** Index `c + 1 + j` taken round an `n`-ring, for `c, j < n`: at most one wrap. */
  function Shifted(c: nat, j: nat, n: nat): nat
    requires c < n && j < n
  {
    if c + 1 + j < n then c + 1 + j else c + 1 + j - n
  }

  lemma NextCursorSteps(c: nat, n: nat)
    requires n >= 2 && c < n
    ensures NextCursor(c, n) == if c + 1 < n then c + 1 else 0
  {
  }

  /** Pick `j` of a run from cursor `c` is index `Shifted(c, j, n)`. */
  lemma {:induction false} PicksAt(c: nat, n: nat, k: nat, j: nat)
    requires n >= 2 && c < n && j < k && j < n
    ensures Picks(c, n, k)[j] == Shifted(c, j, n)
    decreases k
  {
    NextCursorSteps(c, n);
    if j > 0 {
      PicksAt(NextCursor(c, n), n, k - 1, j - 1);
    }
  }

  /**
   * Fairness of round robin: `n` consecutive picks over the same `n`
   * addresses, from any reachable cursor, hit every index exactly once,
   * and pick `n + 1` repeats the first.
   */
  lemma RoundRobinCoversAll(c: nat, n: nat)
    requires n >= 2 && c < n
    ensures forall i, j :: 0 <= i < j < n ==> Picks(c, n, n)[i] != Picks(c, n, n)[j]
    ensures forall t :: 0 <= t < n ==> t in Picks(c, n, n)
    ensures Picks(c, n, n + 1)[n] == Picks(c, n, n + 1)[0]
  {
    var s := Picks(c, n, n);
    forall i, j | 0 <= i < j < n
      ensures s[i] != s[j]
    {
      PicksAt(c, n, n, i);
      PicksAt(c, n, n, j);
    }
    forall t | 0 <= t < n
      ensures t in s
    {
      var j := if t > c then t - c - 1 else t + n - c - 1;
      PicksAt(c, n, n, j);
      assert s[j] == t;
    }
    var next := NextCursor(c, n);
    PicksAt(next, n, n, n - 1);
  }

  /** From the fresh cursor 0, the first multi-address pick is index 1, not index 0. */
  lemma FirstPickIsIndexOne(n: nat)
    requires n >= 2
    ensures Picks(0, n, 1) == [1]
  {
  }

  /** `RoundRobinLoadBalance`: the `AtomicInteger` cursor, read as a plain field. */
  class RoundRobinLoadBalance {
    var cursor: int

    ghost predicate Valid()
      reads this
    {
      0 <= cursor < INT_MAX
    }

    constructor ()
      ensures Valid() && cursor == 0
    {
      cursor := 0;
    }

    /**
     * `select(serviceAddresses, request)`: the request plays no part. With
     * two or more addresses the cursor moves to `NextCursor` and the address
     * at the new cursor is returned.
     */
    method Select(addresses: Option<JavaList<string>>, request: RpcRequest) returns (r: Option<string>)
      requires Valid()
      modifies this
      ensures Valid()
      ensures addresses.None? || |addresses.value| == 0 ==> r.None? && cursor == old(cursor)
      ensures addresses.Some? && |addresses.value| == 1 ==>
        r == Some(addresses.value[0]) && cursor == old(cursor)
      ensures addresses.Some? && |addresses.value| >= 2 ==>
        cursor == NextCursor(old(cursor), |addresses.value|) &&
        r == Some(addresses.value[cursor])
    {
      if addresses.None? || |addresses.value| == 0 {
        return None;
      }
      var list := addresses.value;
      if |list| == 1 {
        return Some(list[0]);
      }
      var size := |list|;
      var current := cursor;
      var next := (current + 1) % size;
      cursor := next;
      r := Some(list[next]);
    }
  }

  // ---------------------------------------------------------------------------
  // Random

  /**
   * `RandomLoadBalance.select`: `Random.nextInt(size)` is a free choice of an
   * index in range; the request plays no part.
   */
  method RandomSelect(addresses: Option<JavaList<string>>, request: RpcRequest) returns (r: Option<string>)
    ensures addresses.None? || |addresses.value| == 0 ==> r.None?
    ensures addresses.Some? && |addresses.value| == 1 ==> r == Some(addresses.value[0])
    ensures addresses.Some? && |addresses.value| >= 2 ==>
      exists i :: 0 <= i < |addresses.value| && r == Some(addresses.value[i])
  {
    if addresses.None? || |addresses.value| == 0 {
      return None;
    }
    var list := addresses.value;
    if |list| == 1 {
      return Some(list[0]);
    }
    var i :| 0 <= i < |list|;
    r := Some(list[i]);
  }
}
