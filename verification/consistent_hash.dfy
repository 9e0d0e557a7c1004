/**
 * `ConsistentHashLoadBalance`: a ring of 32-bit points, four per MD5 digest,
 * forty digests per address; a request goes to the owner of the first point
 * at or after its own hash, wrapping round to the smallest point. One ring is
 * cached per `interface.method`, and rebuilt when the list's identity changes.
 * MD5 itself is a function supplied from outside.
 */
module ConsistentHashing {
  import opened Wrappers
  import opened JavaLang
  import opened BigEndian
  import opened RpcModel

  /** An MD5 digest: sixteen bytes. */
  type Digest = s: seq<Byte> | |s| == 16 witness seq(16, _ => 0)

  /** The bytes of a sequence in reverse order. */
  function Reverse(s: seq<Byte>): (r: seq<Byte>)
    ensures |r| == |s|
    ensures forall i :: 0 <= i < |s| ==> r[i] == s[|s| - 1 - i]
  {
    if |s| == 0 then [] else Reverse(s[1..]) + [s[0]]
  }

  /**
   * `hash(digest, index)`: bytes `4·index .. 4·index+3` of the digest read as
   * an unsigned little-endian 32-bit number.
   */
  function Hash(d: Digest, k: nat): (h: nat)
    requires k < 4
    ensures h < 0x1_0000_0000
    ensures h == FromBytes(Reverse(d[4 * k..4 * k + 4]))
  {
    var w := d[4 * k..4 * k + 4];
    assert Reverse(w) == [w[3], w[2], w[1], w[0]];
    FromBytesOfFour(w[3], w[2], w[1], w[0]);
    (d[3 + 4 * k] as int) * 0x100_0000 + (d[2 + 4 * k] as int) * 0x1_0000
      + (d[1 + 4 * k] as int) * 0x100 + (d[4 * k] as int)
  }

  lemma FromBytesOfFour(b3: Byte, b2: Byte, b1: Byte, b0: Byte)
    ensures FromBytes([b3, b2, b1, b0]) == b3 * 0x100_0000 + b2 * 0x1_0000 + b1 * 0x100 + b0
  {
    assert [b3][..0] == [];
    assert FromBytes([b3]) == b3;
    assert [b3, b2][..1] == [b3];
    assert FromBytes([b3, b2]) == b3 * 0x100 + b2;
    assert [b3, b2, b1][..2] == [b3, b2];
    assert FromBytes([b3, b2, b1]) == (b3 * 0x100 + b2) * 0x100 + b1;
    assert [b3, b2, b1, b0][..3] == [b3, b2, b1];
  }

  /** Point `j` of the digest of `address + n`. */
  function Point(address: string, md5: string -> Digest, n: nat, j: nat): nat
    requires j < 4
  {
    Hash(md5(address + NatToString(n)), j)
  }

  /** The ring after putting digest points `0 .. h-1` of `d`, each owned by `address`. */
  function AddPoints(ring: map<int, string>, address: string, d: Digest, h: nat): map<int, string>
    requires h <= 4
  {
    if h == 0 then ring else AddPoints(ring, address, d, h - 1)[Hash(d, h - 1) := address]
  }

  /** The ring after the points of the digests of `address + 0` .. `address + (i-1)`. */
  function AddReplicas(ring: map<int, string>, address: string, md5: string -> Digest, i: nat): map<int, string>
  {
    if i == 0 then ring
    else AddPoints(AddReplicas(ring, address, md5, i - 1), address, md5(address + NatToString(i - 1)), 4)
  }

  /** The ring the selector constructor builds: addresses in list order, later puts overwriting. */
  function Ring(addresses: seq<string>, perAddress: nat, md5: string -> Digest): (r: map<int, string>)
    ensures perAddress == 0 ==> r == map[]
  {
    if |addresses| == 0 then map[]
    else AddReplicas(Ring(addresses[..|addresses| - 1], perAddress, md5), addresses[|addresses| - 1], md5, perAddress)
  }

  /** Digests per address for a `replicaNumber`: Java's `replicaNumber / 4`, never positive when negative. */
  function DigestsPerAddress(replicaNumber: Int32): (n: nat)
    ensures replicaNumber >= 0 ==> 4 * n <= replicaNumber < 4 * n + 4
    ensures replicaNumber < 4 ==> n == 0
  {
    if replicaNumber < 0 then 0 else replicaNumber / 4
  }

  /** Putting points keeps every earlier point, adds only points of `d` owned by `address`. */
  lemma {:induction false} AddPointsShape(ring: map<int, string>, address: string, d: Digest, h: nat)
    requires h <= 4
    ensures ring.Keys <= AddPoints(ring, address, d, h).Keys
    ensures forall k :: k in AddPoints(ring, address, d, h) ==>
      (k in ring && AddPoints(ring, address, d, h)[k] == ring[k]) || AddPoints(ring, address, d, h)[k] == address
    ensures forall j :: 0 <= j < h ==>
      Hash(d, j) in AddPoints(ring, address, d, h) && AddPoints(ring, address, d, h)[Hash(d, j)] == address
    ensures forall k :: k in AddPoints(ring, address, d, h) && k !in ring ==> 0 <= k < 0x1_0000_0000
  {
    if h > 0 {
      AddPointsShape(ring, address, d, h - 1);
    }
  }

  /** The same for all the digests of one address. */
  lemma {:induction false} AddReplicasShape(ring: map<int, string>, address: string, md5: string -> Digest, i: nat)
    ensures ring.Keys <= AddReplicas(ring, address, md5, i).Keys
    ensures forall k :: k in AddReplicas(ring, address, md5, i) ==>
      (k in ring && AddReplicas(ring, address, md5, i)[k] == ring[k]) || AddReplicas(ring, address, md5, i)[k] == address
    ensures forall n, j :: 0 <= n < i && 0 <= j < 4 ==>
      Point(address, md5, n, j) in AddReplicas(ring, address, md5, i) &&
      AddReplicas(ring, address, md5, i)[Point(address, md5, n, j)] == address
    ensures forall k :: k in AddReplicas(ring, address, md5, i) && k !in ring ==> 0 <= k < 0x1_0000_0000
  {
    if i > 0 {
      var prev := AddReplicas(ring, address, md5, i - 1);
      var d := md5(address + NatToString(i - 1));
      AddReplicasShape(ring, address, md5, i - 1);
      AddPointsShape(prev, address, d, 4);
      var r := AddReplicas(ring, address, md5, i);
      forall n, j | 0 <= n < i && 0 <= j < 4
        ensures Point(address, md5, n, j) in r && r[Point(address, md5, n, j)] == address
      {
        if n < i - 1 {
          var p := Point(address, md5, n, j);
          assert p in prev && prev[p] == address;
          assert p in r;
        } else {
          assert Point(address, md5, n, j) == Hash(d, j);
        }
      }
    }
  }

  /**
   * What the ring holds: every point is a 32-bit hash owned by one of the
   * addresses, and with at least one digest per address it is not empty
   * (the first point of the last address is there).
   */
  lemma {:induction false} RingShape(addresses: seq<string>, perAddress: nat, md5: string -> Digest)
    ensures forall k :: k in Ring(addresses, perAddress, md5) ==>
      Ring(addresses, perAddress, md5)[k] in addresses && 0 <= k < 0x1_0000_0000
    ensures |addresses| > 0 && perAddress > 0 ==> Point(addresses[|addresses| - 1], md5, 0, 0) in Ring(addresses, perAddress, md5)
  {
    if |addresses| > 0 {
      var front := addresses[..|addresses| - 1];
      var last := addresses[|addresses| - 1];
      var ring := Ring(front, perAddress, md5);
      var r := Ring(addresses, perAddress, md5);
      assert r == AddReplicas(ring, last, md5, perAddress);
      RingShape(front, perAddress, md5);
      AddReplicasShape(ring, last, md5, perAddress);
      forall k | k in r
        ensures r[k] in addresses && 0 <= k < 0x1_0000_0000
      {
        if k in ring && r[k] == ring[k] {
          assert ring[k] in front;
        } else {
          assert r[k] == last;
        }
      }
      if perAddress > 0 {
        assert Point(last, md5, 0, 0) in r;
      }
    }
  }

  /** On a point collision the later address wins: every point of the last address is owned by it. */
  lemma LastAddressWins(front: seq<string>, last: string, perAddress: nat, md5: string -> Digest, n: nat, j: nat)
    requires n < perAddress && j < 4
    ensures Point(last, md5, n, j) in Ring(front + [last], perAddress, md5)
    ensures Ring(front + [last], perAddress, md5)[Point(last, md5, n, j)] == last
  {
    var addresses := front + [last];
    assert addresses[..|addresses| - 1] == front;
    AddReplicasShape(Ring(front, perAddress, md5), last, md5, perAddress);
  }

  // ---------------------------------------------------------------------------
  // The ceiling lookup

  lemma {:induction false} HasLeast(s: set<int>)
    requires exists x :: x in s
    ensures exists m :: m in s && forall j :: j in s ==> m <= j
    decreases |s|
  {
    var x :| x in s;
    if exists y :: y in s && y < x {
      var y :| y in s && y < x;
      var rest := s - {x};
      assert y in rest;
      assert |rest| < |s|;
      HasLeast(rest);
      var m :| m in rest && forall j :: j in rest ==> m <= j;
      forall j | j in s
        ensures m <= j
      {
        if j != x {
          assert j in rest;
        }
      }
      assert m in s;
    } else {
      assert forall j :: j in s ==> x <= j;
    }
  }

  /** The smallest element of a non-empty finite set of points. */
  function Least(s: set<int>): (m: int)
    requires exists x :: x in s
    ensures m in s && forall j :: j in s ==> m <= j
  {
    HasLeast(s);
    var m :| m in s && forall j :: j in s ==> m <= j;
    m
  }

  /**
   * `point` is the entry `ceilingEntry(h)` returns, or, when there is none,
   * the entry `firstEntry()` returns.
   */
  predicate IsChosen(points: set<int>, h: int, point: int)
  {
    point in points &&
    ((point >= h && forall q :: q in points && q >= h ==> point <= q) ||
     ((forall q :: q in points ==> q < h) && forall q :: q in points ==> point <= q))
  }

  /** The ring lookup is a function of the ring and the hash: at most one point qualifies. */
  lemma ChosenIsUnique(points: set<int>, h: int, p1: int, p2: int)
    requires IsChosen(points, h, p1) && IsChosen(points, h, p2)
    ensures p1 == p2
  {
  }

  /** `ConsistentHashSelector`: the ring and the identity token of the list it was built from. */
  class ConsistentHashSelector {
    const virtualNodes: map<int, string>
    const identityHashCode: Int32
    const md5: string -> Digest
    /** The list the ring was built from (the selector itself keeps only the ring). */
    ghost const builtFrom: seq<string>

    ghost predicate Valid()
    {
      forall k :: k in virtualNodes ==> virtualNodes[k] in builtFrom
    }

    /** The nested loops of the constructor: addresses, digests, then four points per digest. */
    constructor (addresses: seq<string>, replicaNumber: Int32, identityHashCode: Int32, md5: string -> Digest)
      ensures virtualNodes == Ring(addresses, DigestsPerAddress(replicaNumber), md5)
      ensures this.identityHashCode == identityHashCode && this.md5 == md5 && builtFrom == addresses
      ensures Valid()
    {
      var perAddress := DigestsPerAddress(replicaNumber);
      var ring: map<int, string> := map[];
      var a := 0;
      while a < |addresses|
        invariant 0 <= a <= |addresses|
        invariant ring == Ring(addresses[..a], perAddress, md5)
      {
        var address := addresses[a];
        var i := 0;
        while i < perAddress
          invariant 0 <= i <= perAddress
          invariant ring == AddReplicas(Ring(addresses[..a], perAddress, md5), address, md5, i)
        {
          var digest := md5(address + NatToString(i));
          var h := 0;
          while h < 4
            invariant 0 <= h <= 4
            invariant ring == AddPoints(AddReplicas(Ring(addresses[..a], perAddress, md5), address, md5, i),
                                        address, digest, h)
          {
            ring := ring[Hash(digest, h) := address];
            h := h + 1;
          }
          i := i + 1;
        }
        assert addresses[..a + 1][..a] == addresses[..a];
        a := a + 1;
      }
      assert addresses[..a] == addresses;
      RingShape(addresses, perAddress, md5);
      virtualNodes := ring;
      this.identityHashCode := identityHashCode;
      this.md5 := md5;
      builtFrom := addresses;
    }

    /**
     * `select(key)`: the owner of the first point at or after `hash(md5(key), 0)`,
     * or of the smallest point when none is that large. An empty ring has no
     * first entry, and `entry.getValue()` throws NullPointerException.
     */
    function Select(key: string): (r: Result<string, Exception>)
      ensures r.Success? <==> exists p :: p in virtualNodes
      ensures r.Success? ==> exists p :: IsChosen(virtualNodes.Keys, Hash(md5(key), 0), p) && r.value == virtualNodes[p]
      ensures r.Failure? ==> r.error == Exception(NullPointerException, None, None)
    {
      var h := Hash(md5(key), 0);
      var above := set p | p in virtualNodes && p >= h;
      if exists p :: p in virtualNodes && p >= h then
        assert exists x :: x in above by {
          var q :| q in virtualNodes && q >= h;
          assert q in above;
        }
        var p := Least(above);
        assert IsChosen(virtualNodes.Keys, h, p) by {
          forall q | q in virtualNodes && q >= h
            ensures p <= q
          {
            assert q in above;
          }
        }
        Success(virtualNodes[p])
      else if exists p :: p in virtualNodes then
        var p := Least(virtualNodes.Keys);
        assert IsChosen(virtualNodes.Keys, h, p) by {
        }
        Success(virtualNodes[p])
      else
        Failure(Exception(NullPointerException, None, None))
    }
  }

  /** `ConsistentHashLoadBalance`: one selector per `interface.method`, in the `selectors` map. */
  class ConsistentHashLoadBalance {
    var selectors: map<string, ConsistentHashSelector>
    const md5: string -> Digest

    /** Every cached selector holds a non-empty ring over the list it was built from. */
    ghost predicate Valid()
      reads this
    {
      forall key :: key in selectors ==>
        selectors[key].Valid() && (exists p :: p in selectors[key].virtualNodes) && selectors[key].md5 == md5
    }

    constructor (md5: string -> Digest)
      ensures Valid() && selectors == map[] && this.md5 == md5
    {
      selectors := map[];
      this.md5 := md5;
    }

    /**
     * The cached selector for `key`: reused when it was built for `identity`,
     * otherwise replaced by a new one over `list` with 160 replicas.
     */
    method SelectorFor(key: string, list: seq<string>, identity: Int32) returns (selector: ConsistentHashSelector)
      requires Valid() && |list| >= 2
      modifies this
      ensures Valid() && key in selectors && selector == selectors[key]
      ensures selectors == old(selectors)[key := selector]
      ensures key in old(selectors) && old(selectors)[key].identityHashCode == identity ==>
        selector == old(selectors)[key]
      ensures key !in old(selectors) || old(selectors)[key].identityHashCode != identity ==>
        && fresh(selector)
        && selector.virtualNodes == Ring(list, 40, md5)
        && selector.identityHashCode == identity
        && selector.builtFrom == list
    {
      if key !in selectors || selectors[key].identityHashCode != identity {
        var built := new ConsistentHashSelector(list, 160, identity, md5);
        assert DigestsPerAddress(160) == 40;
        RingShape(list, 40, md5);
        assert Point(list[|list| - 1], md5, 0, 0) in built.virtualNodes;
        selectors := selectors[key := built];
      }
      selector := selectors[key];
    }

    /**
     * `select(serviceAddresses, request)`. `identity` is
     * `System.identityHashCode(serviceAddresses)`. With two or more addresses
     * the selector cached under `interfaceName.methodName` is reused or
     * rebuilt (`SelectorFor`), and the answer is its choice for the request
     * id: an address of the list that selector was built from.
     */
    method Select(addresses: Option<JavaList<string>>, request: RpcRequest, identity: Int32)
      returns (r: Option<string>)
      requires Valid()
      modifies this
      ensures Valid()
      ensures addresses.None? || |addresses.value| < 2 ==> selectors == old(selectors)
      ensures addresses.None? || |addresses.value| == 0 ==> r.None?
      ensures addresses.Some? && |addresses.value| == 1 ==> r == Some(addresses.value[0])
      ensures addresses.Some? && |addresses.value| >= 2 ==>
        var key := request.interfaceName + "." + request.methodName;
        && key in selectors
        && selectors == old(selectors)[key := selectors[key]]
        && (key in old(selectors) && old(selectors)[key].identityHashCode == identity ==>
              selectors[key] == old(selectors)[key])
        && (key !in old(selectors) || old(selectors)[key].identityHashCode != identity ==>
              selectors[key].builtFrom == addresses.value)
        && r.Some? && selectors[key].Select(request.requestId) == Success(r.value)
        && r.value in selectors[key].builtFrom
    {
      if addresses.None? || |addresses.value| == 0 {
        return None;
      }
      var list := addresses.value;
      if |list| == 1 {
        return Some(list[0]);
      }
      var key := request.interfaceName + "." + request.methodName;
      var selector := SelectorFor(key, list, identity);
      var chosen := selector.Select(request.requestId);
      r := Some(chosen.value);
    }
  }
}
