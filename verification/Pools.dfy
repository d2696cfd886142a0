/** The command and event pools: the slab of utils/slab.c, the doubly linked list of
    utils/list.c, and the queue osdp_cp.c and osdp_pd.c build from them. A node is
    named by the number of the unit it lies in. */
module Pools {
  import opened Bytes
  import opened Sequences

  // ----- utils/list.c -----

  const NULL: int := -1

  /** Positions of a chain: where its neighbours are. */
  function Before(nodes: seq<nat>, k: nat): int
    requires k < |nodes|
  {
    if k == 0 then NULL else nodes[k - 1]
  }

  function Behind(nodes: seq<nat>, k: nat): int
    requires k < |nodes|
  {
    if k == |nodes| - 1 then NULL else nodes[k + 1]
  }

  /** Head, tail and both links of every node spell out the chain. */
  ghost predicate Linked(nodes: seq<nat>, head: int, tail: int, next: seq<int>, prev: seq<int>) {
    && |next| == |prev| && Distinct(nodes)
    && (forall k :: 0 <= k < |nodes| ==> nodes[k] < |next|)
    && head == (if nodes == [] then NULL else nodes[0])
    && tail == (if nodes == [] then NULL else nodes[|nodes| - 1])
    && (forall k :: 0 <= k < |nodes| ==> next[nodes[k]] == Behind(nodes, k) && prev[nodes[k]] == Before(nodes, k))
  }

  lemma AppendLinked(nodes: seq<nat>, head: int, tail: int, next: seq<int>, prev: seq<int>, node: nat)
    requires Linked(nodes, head, tail, next, prev) && node < |next| && node !in nodes
    ensures var next' := next[node := NULL];
            var next'' := if tail != NULL then next'[tail := node] else next';
      Linked(nodes + [node], if head == NULL then node else head, node, next'', prev[node := tail])
  {
    var next' := next[node := NULL];
    var next'' := if tail != NULL then next'[tail := node] else next';
    var all := nodes + [node];
    hide Linked, Distinct, Behind, Before;
    ChainEnds(nodes, head, tail, next, prev);
    DistinctAppend(nodes, node);
    forall k | 0 <= k < |all|
      ensures all[k] < |next''| && next''[all[k]] == Behind(all, k) && prev[node := tail][all[k]] == Before(all, k)
    {
      if k < |nodes| {
        AppendKeeps(nodes, head, tail, next, prev, node, k);
      } else {
        LastAppended(nodes, node);
      }
    }
    MakeLinked(all, if head == NULL then node else head, node, next'', prev[node := tail]);
  }

  lemma LastAppended(nodes: seq<nat>, node: nat)
    ensures Behind(nodes + [node], |nodes|) == NULL
    ensures Before(nodes + [node], |nodes|) == if nodes == [] then NULL else nodes[|nodes| - 1]
  {
  }

  lemma MakeLinked(nodes: seq<nat>, head: int, tail: int, next: seq<int>, prev: seq<int>)
    requires |next| == |prev| && Distinct(nodes) && nodes != [] && head == nodes[0] && tail == nodes[|nodes| - 1]
    requires forall k :: 0 <= k < |nodes| ==>
      nodes[k] < |next| && next[nodes[k]] == Behind(nodes, k) && prev[nodes[k]] == Before(nodes, k)
    ensures Linked(nodes, head, tail, next, prev)
  {
  }

  lemma AppendKeeps(nodes: seq<nat>, head: int, tail: int, next: seq<int>, prev: seq<int>, node: nat, k: nat)
    requires Linked(nodes, head, tail, next, prev) && node < |next| && node !in nodes && k < |nodes|
    ensures next[node := NULL][tail := node][nodes[k]] == Behind(nodes + [node], k)
    ensures prev[node := tail][nodes[k]] == Before(nodes + [node], k)
  {
    hide Linked, Distinct;
    var last := |nodes| - 1;
    ChainEnds(nodes, head, tail, next, prev);
    ChainAt(nodes, head, tail, next, prev, k);
    assert nodes[k] != node;
    if k < last {
      Different(nodes, k, last);
    }
  }

  lemma Different(nodes: seq<nat>, i: nat, j: nat)
    requires Distinct(nodes) && i < j < |nodes|
    ensures nodes[i] != nodes[j]
  {
  }

  lemma DistinctAppend(nodes: seq<nat>, node: nat)
    requires Distinct(nodes) && node !in nodes
    ensures Distinct(nodes + [node]) && Distinct([node] + nodes)
  {
  }

  lemma AppendLeftLinked(nodes: seq<nat>, head: int, tail: int, next: seq<int>, prev: seq<int>, node: nat)
    requires Linked(nodes, head, tail, next, prev) && node < |next| && node !in nodes
    ensures var prev' := prev[node := NULL];
            var prev'' := if head != NULL then prev'[head := node] else prev';
      Linked([node] + nodes, node, if tail == NULL then node else tail, next[node := head], prev'')
  {
    var prev' := prev[node := NULL];
    var prev'' := if head != NULL then prev'[head := node] else prev';
    var all := [node] + nodes;
    hide Linked, Distinct, Behind, Before;
    ChainEnds(nodes, head, tail, next, prev);
    DistinctAppend(nodes, node);
    forall k | 0 <= k < |all|
      ensures all[k] < |next| && next[node := head][all[k]] == Behind(all, k) && prev''[all[k]] == Before(all, k)
    {
      PrependAt(nodes, head, tail, next, prev, node, k);
    }
    assert tail != NULL ==> all[|all| - 1] == tail;
    MakeLinked(all, node, if tail == NULL then node else tail, next[node := head], prev'');
  }

  lemma FirstPrepended(nodes: seq<nat>, node: nat)
    ensures Before([node] + nodes, 0) == NULL
    ensures Behind([node] + nodes, 0) == if nodes == [] then NULL else nodes[0]
  {
  }

  lemma PrependAt(nodes: seq<nat>, head: int, tail: int, next: seq<int>, prev: seq<int>, node: nat, k: nat)
    requires Linked(nodes, head, tail, next, prev) && node < |next| && node !in nodes && k <= |nodes|
    ensures |prev| == |next| && (head != NULL ==> 0 <= head < |prev|)
    ensures var all := [node] + nodes;
            var prev' := prev[node := NULL];
            var prev'' := if head != NULL then prev'[head := node] else prev';
      && all[k] < |next|
      && next[node := head][all[k]] == Behind(all, k) && prev''[all[k]] == Before(all, k)
  {
    hide Linked, Distinct, Behind, Before;
    ChainEnds(nodes, head, tail, next, prev);
    if k > 0 {
      PrependKeeps(nodes, head, tail, next, prev, node, k);
    } else {
      FirstPrepended(nodes, node);
      assert head != node;
    }
  }

  lemma PrependKeeps(nodes: seq<nat>, head: int, tail: int, next: seq<int>, prev: seq<int>, node: nat, k: nat)
    requires Linked(nodes, head, tail, next, prev) && node < |next| && node !in nodes && 0 < k <= |nodes|
    ensures nodes[k - 1] < |next| && next[node := head][nodes[k - 1]] == Behind([node] + nodes, k)
    ensures prev[node := NULL][head := node][nodes[k - 1]] == Before([node] + nodes, k)
  {
    hide Linked, Distinct;
    ChainEnds(nodes, head, tail, next, prev);
    ChainAt(nodes, head, tail, next, prev, k - 1);
    assert nodes[k - 1] != node;
    if k > 1 {
      Different(nodes, 0, k - 1);
      assert ([node] + nodes)[k - 1] == nodes[k - 2];
    }
  }

  /** Taking a node out of the chain, wherever it is. */
  function Without(nodes: seq<nat>, k: nat): seq<nat>
    requires k < |nodes|
  {
    nodes[..k] + nodes[k + 1..]
  }

  lemma WithoutAt(nodes: seq<nat>, k: nat, i: nat)
    requires k < |nodes| && i < |nodes| - 1
    ensures Without(nodes, k)[i] == nodes[if i < k then i else i + 1]
    ensures Behind(Without(nodes, k), i) ==
            if i == k - 1 then Behind(nodes, k) else Behind(nodes, if i < k then i else i + 1)
    ensures Before(Without(nodes, k), i) ==
            if i == k then Before(nodes, k) else Before(nodes, if i < k then i else i + 1)
  {
  }

  lemma DistinctWithout(nodes: seq<nat>, k: nat)
    requires Distinct(nodes) && k < |nodes|
    ensures Distinct(Without(nodes, k)) && nodes[k] !in Without(nodes, k)
  {
    var w := Without(nodes, k);
    forall i, j | 0 <= i < j < |w| ensures w[i] != w[j] {
      WithoutAt(nodes, k, i);
      WithoutAt(nodes, k, j);
    }
    forall i | 0 <= i < |w| ensures w[i] != nodes[k] {
      WithoutAt(nodes, k, i);
    }
  }

  /** The links that a removal leaves: the neighbours now point at each other. */
  ghost predicate Bridged(nodes: seq<nat>, k: nat, next: seq<int>, prev: seq<int>, next': seq<int>, prev': seq<int>)
    requires k < |nodes| && |next| == |next'| == |prev| == |prev'|
    requires forall i :: 0 <= i < |nodes| ==> nodes[i] < |next|
  {
    forall i :: 0 <= i < |nodes| && i != k ==>
      && next'[nodes[i]] == (if i == k - 1 then next[nodes[k]] else next[nodes[i]])
      && prev'[nodes[i]] == (if i == k + 1 then prev[nodes[k]] else prev[nodes[i]])
  }

  lemma RemoveLinked(nodes: seq<nat>, k: nat, head: int, tail: int, next: seq<int>, prev: seq<int>,
                     head': int, tail': int, next': seq<int>, prev': seq<int>)
    requires Linked(nodes, head, tail, next, prev) && k < |nodes|
    requires |next'| == |prev'| == |next| && Bridged(nodes, k, next, prev, next', prev')
    requires head' == if k == 0 then next[nodes[k]] else head
    requires tail' == if k == |nodes| - 1 then prev[nodes[k]] else tail
    ensures Linked(Without(nodes, k), head', tail', next', prev')
  {
    var w := Without(nodes, k);
    DistinctWithout(nodes, k);
    forall i | 0 <= i < |w|
      ensures w[i] < |next'| && next'[w[i]] == Behind(w, i) && prev'[w[i]] == Before(w, i)
    {
      RemoveKeeps(nodes, k, head, tail, next, prev, next', prev', i);
    }
    RemovedEnds(nodes, k);
  }

  lemma RemovedEnds(nodes: seq<nat>, k: nat)
    requires k < |nodes|
    ensures var w := Without(nodes, k);
      && (w != [] ==> w[0] == if k == 0 then Behind(nodes, 0) else nodes[0])
      && (w != [] ==> w[|w| - 1] == if k == |nodes| - 1 then Before(nodes, k) else nodes[|nodes| - 1])
      && (w == [] ==> Behind(nodes, k) == NULL && Before(nodes, k) == NULL)
  {
  }

  lemma RemoveKeeps(nodes: seq<nat>, k: nat, head: int, tail: int, next: seq<int>, prev: seq<int>,
                    next': seq<int>, prev': seq<int>, i: nat)
    requires Linked(nodes, head, tail, next, prev) && k < |nodes| && i < |nodes| - 1
    requires |next'| == |prev'| == |next| && Bridged(nodes, k, next, prev, next', prev')
    ensures var w := Without(nodes, k);
      w[i] < |next'| && next'[w[i]] == Behind(w, i) && prev'[w[i]] == Before(w, i)
  {
    WithoutAt(nodes, k, i);
    var j := if i < k then i else i + 1;
    hide Without, Behind, Before;
    assert next[nodes[j]] == Behind(nodes, j) && prev[nodes[j]] == Before(nodes, j);
  }

  lemma ChainEnds(nodes: seq<nat>, head: int, tail: int, next: seq<int>, prev: seq<int>)
    requires Linked(nodes, head, tail, next, prev)
    ensures |next| == |prev| && Distinct(nodes) && forall k :: 0 <= k < |nodes| ==> nodes[k] < |next|
    ensures head == (if nodes == [] then NULL else nodes[0])
    ensures tail == (if nodes == [] then NULL else nodes[|nodes| - 1])
    ensures nodes != [] ==> next[nodes[0]] == Behind(nodes, 0) && prev[nodes[|nodes| - 1]] == Before(nodes, |nodes| - 1)
    ensures nodes != [] ==> prev[nodes[0]] == NULL && next[nodes[|nodes| - 1]] == NULL
  {
  }

  lemma ChainAt(nodes: seq<nat>, head: int, tail: int, next: seq<int>, prev: seq<int>, k: nat)
    requires Linked(nodes, head, tail, next, prev) && k < |nodes|
    ensures next[nodes[k]] == Behind(nodes, k) && prev[nodes[k]] == Before(nodes, k)
  {
  }

  class List {
    const next: array<int>
    const prev: array<int>
    var head: int
    var tail: int
    ghost var nodes: seq<nat>

    ghost predicate Valid()
      reads this, next, prev
    {
      next != prev && Linked(nodes, head, tail, next[..], prev[..])
    }

    /** list_init, over a memory of n nodes */
    constructor (n: nat)
      ensures Valid() && nodes == [] && fresh(next) && fresh(prev) && next.Length == n
    {
      next, prev := new int[n](_ => NULL), new int[n](_ => NULL);
      head, tail, nodes := NULL, NULL, [];
    }

    /** list_append */
    method Append(node: nat)
      requires Valid() && node < next.Length && node !in nodes
      modifies this, next, prev
      ensures Valid() && nodes == old(nodes) + [node]
    {
      hide Linked;
      AppendLinked(nodes, head, tail, next[..], prev[..], node);
      ChainEnds(nodes, head, tail, next[..], prev[..]);
      prev[node] := tail;
      next[node] := NULL;
      if tail != NULL {
        next[tail] := node;
      }
      tail := node;
      if head == NULL {
        head := node;
      }
      nodes := nodes + [node];
    }

    /** list_appendleft */
    method AppendLeft(node: nat)
      requires Valid() && node < next.Length && node !in nodes
      modifies this, next, prev
      ensures Valid() && nodes == [node] + old(nodes)
    {
      hide Linked;
      AppendLeftLinked(nodes, head, tail, next[..], prev[..], node);
      ChainEnds(nodes, head, tail, next[..], prev[..]);
      prev[node] := NULL;
      next[node] := head;
      if head != NULL {
        prev[head] := node;
      }
      head := node;
      if tail == NULL {
        tail := node;
      }
      nodes := [node] + nodes;
    }

    /** list_pop */
    method Pop() returns (ok: bool, node: nat)
      requires Valid()
      modifies this, next
      ensures Valid() && ok == (old(nodes) != [])
      ensures ok ==> old(nodes) == nodes + [node]
      ensures !ok ==> nodes == old(nodes)
    {
      hide Linked;
      ChainEnds(nodes, head, tail, next[..], prev[..]);
      if tail == NULL {
        return false, 0;
      }
      ghost var k := |nodes| - 1;
      ghost var head0, tail0, next0, prev0 := head, tail, next[..], prev[..];
      node := tail;
      tail := prev[tail];
      if tail != NULL {
        next[tail] := NULL;
      } else {
        head := NULL;
      }
      RemoveLinked(nodes, k, head0, tail0, next0, prev0, head, tail, next[..], prev[..]);
      nodes := Without(nodes, k);
      ok := true;
    }

    /** list_popleft */
    method PopLeft() returns (ok: bool, node: nat)
      requires Valid()
      modifies this, prev
      ensures Valid() && ok == (old(nodes) != [])
      ensures ok ==> old(nodes) == [node] + nodes
      ensures !ok ==> nodes == old(nodes)
    {
      hide Linked;
      ChainEnds(nodes, head, tail, next[..], prev[..]);
      if head == NULL {
        return false, 0;
      }
      ghost var head0, tail0, next0, prev0 := head, tail, next[..], prev[..];
      node := head;
      head := next[head];
      if head != NULL {
        prev[head] := NULL;
      } else {
        tail := NULL;
      }
      RemoveLinked(nodes, 0, head0, tail0, next0, prev0, head, tail, next[..], prev[..]);
      nodes := Without(nodes, 0);
      ok := true;
    }

    /** list_remove_node */
    method RemoveNode(node: nat, ghost k: nat)
      requires Valid() && k < |nodes| && nodes[k] == node
      modifies this, next, prev
      ensures Valid() && nodes == old(nodes)[..k] + old(nodes)[k + 1..]
    {
      hide Linked;
      ChainEnds(nodes, head, tail, next[..], prev[..]);
      ChainAt(nodes, head, tail, next[..], prev[..], k);
      ghost var head0, tail0, next0, prev0 := head, tail, next[..], prev[..];
      if prev[node] == NULL {
        head := next[node];
        if head == NULL {
          tail := NULL;
        } else {
          prev[head] := NULL;
        }
      } else if next[node] == NULL {
        tail := prev[node];
        if tail == NULL {
          assert false;
        } else {
          next[tail] := NULL;
        }
      } else {
        prev[next[node]] := prev[node];
        next[prev[node]] := next[node];
      }
      RemoveLinked(nodes, k, head0, tail0, next0, prev0, head, tail, next[..], prev[..]);
      nodes := Without(nodes, k);
    }
  }

  // ----- utils/slab.c -----

  /** Octets of a unit before its data: the word `leased` and the word `canary`. */
  const UNIT_HEADER: nat := 8
  const POINTER_SIZE: nat := 8
  const FREE: seq<uint8> := [0, 0, 0, 0]
  const LEASED: seq<uint8> := [1, 0, 0, 0]

  /** 0xdeadbeaf, least significant octet first */
  const CANARY: seq<uint8> := [0xAF, 0xBE, 0xAD, 0xDE]

  function RoundUp(n: nat, k: nat): nat
    requires k > 0
  {
    (n + k - 1) / k * k
  }

  /** The octets of one unit: the requested size rounded up, and the unit's header. */
  function UnitSize(slabSize: nat): nat { RoundUp(slabSize, POINTER_SIZE) + UNIT_HEADER }

  lemma UnitHolds(slabSize: nat)
    ensures UNIT_HEADER + slabSize <= UnitSize(slabSize)
  {
  }

  /** Unit i takes the octets from i * size on. */
  function UnitAt(blob: seq<uint8>, size: nat, i: nat): seq<uint8> {
    var o := i * size;
    if o + size <= |blob| then blob[o..o + size] else []
  }

  function Units(blob: seq<uint8>, size: nat, count: nat): (u: seq<seq<uint8>>)
    ensures |u| == count
  {
    seq(count, i requires 0 <= i < count => UnitAt(blob, size, i))
  }

  /** All units lie in the blob, and different ones share no octet. */
  lemma UnitInside(size: nat, count: nat, i: nat)
    requires i < count
    ensures i * size + size <= count * size
  {
    Multiples(i + 1, count, size);
    assert (i + 1) * size == i * size + size;
  }

  lemma UnitsApart(size: nat, i: nat, j: nat)
    requires i != j
    ensures i * size + size <= j * size || j * size + size <= i * size
  {
    UnitInside(size, if i < j then j else i, if i < j then i else j);
  }

  lemma Multiples(a: nat, b: nat, size: nat)
    requires a <= b
    ensures a * size <= b * size
  {
  }

  lemma UnitLengths(blob: seq<uint8>, size: nat, count: nat)
    requires count * size <= |blob|
    ensures forall i :: 0 <= i < count ==> |Units(blob, size, count)[i]| == size
  {
    forall i | 0 <= i < count ensures |Units(blob, size, count)[i]| == size {
      UnitInside(size, count, i);
    }
  }

  /** Writing within unit i changes no other. */
  lemma UnitWritten(was: seq<uint8>, now: seq<uint8>, size: nat, count: nat, i: nat)
    requires |was| == |now| && count * size <= |was| && i < count
    requires forall o :: 0 <= o < |was| && !(i * size <= o < i * size + size) ==> now[o] == was[o]
    ensures Units(now, size, count) == Units(was, size, count)[i := UnitAt(now, size, i)]
  {
    forall j | 0 <= j < count && j != i ensures UnitAt(now, size, j) == UnitAt(was, size, j) {
      UnitInside(size, count, j);
      OtherUnit(was, now, size, i, j);
    }
  }

  lemma OtherUnit(was: seq<uint8>, now: seq<uint8>, size: nat, i: nat, j: nat)
    requires |was| == |now| && i != j && j * size + size <= |was|
    requires forall o :: 0 <= o < |was| && !(i * size <= o < i * size + size) ==> now[o] == was[o]
    ensures UnitAt(now, size, j) == UnitAt(was, size, j)
  {
    UnitsApart(size, i, j);
    var a := j * size;
    assert now[a..a + size] == was[a..a + size];
  }

  predicate IsLeased(u: seq<uint8>) { |u| >= UNIT_HEADER && u[..4] != FREE }

  predicate HasCanary(u: seq<uint8>) { |u| >= UNIT_HEADER && u[4..8] == CANARY }

  /** A unit's octets with its first word replaced. */
  function Marked(u: seq<uint8>, word: seq<uint8>): seq<uint8>
    requires |u| >= UNIT_HEADER && |word| == 4
  {
    word + u[4..]
  }

  /** A unit as slab_alloc leaves it. */
  function Given(u: seq<uint8>): seq<uint8>
    requires |u| >= UNIT_HEADER
  {
    LEASED + CANARY + u[8..]
  }

  /** A unit with its first data octets replaced. */
  function Holding(u: seq<uint8>, data: seq<uint8>): seq<uint8>
    requires |u| >= UNIT_HEADER + |data|
  {
    u[..8] + data + u[8 + |data|..]
  }

  /** One stretch of the blob replaced. */
  function Spliced(b: seq<uint8>, o: nat, data: seq<uint8>): (r: seq<uint8>)
    requires o + |data| <= |b|
    ensures |r| == |b|
  {
    b[..o] + data + b[o + |data|..]
  }

  lemma SplicedOutside(b: seq<uint8>, o: nat, data: seq<uint8>, p: nat)
    requires o + |data| <= |b| && p < |b| && !(o <= p < o + |data|)
    ensures Spliced(b, o, data)[p] == b[p]
  {
  }

  /** A splice within a unit, seen from the unit. */
  lemma SplicedUnit(b: seq<uint8>, o: nat, size: nat, k: nat, data: seq<uint8>)
    requires o + size <= |b| && k + |data| <= size
    ensures Spliced(b, o + k, data)[o..o + size] == Spliced(b[o..o + size], k, data)
  {
  }

  lemma MarkedSplice(u: seq<uint8>, word: seq<uint8>)
    requires |u| >= UNIT_HEADER && |word| == 4
    ensures Spliced(u, 0, word) == Marked(u, word)
  {
  }

  lemma GivenSplices(u: seq<uint8>)
    requires |u| >= UNIT_HEADER
    ensures Spliced(Spliced(u, 0, LEASED), 4, CANARY) == Given(u)
  {
  }

  lemma HoldingSplice(u: seq<uint8>, data: seq<uint8>)
    requires |u| >= UNIT_HEADER + |data|
    ensures Spliced(u, 8, data) == Holding(u, data)
  {
  }

  lemma SplicedBeside(b: seq<uint8>, o: nat, size: nat, k: nat, data: seq<uint8>)
    requires o + size <= |b| && k + |data| <= size
    ensures var now := Spliced(b, o + k, data);
      && now[o..o + size] == Spliced(b[o..o + size], k, data)
      && forall p :: 0 <= p < |b| && !(o <= p < o + size) ==> now[p] == b[p]
  {
    hide Spliced;
    SplicedUnit(b, o, size, k, data);
    forall p | 0 <= p < |b| && !(o <= p < o + size) ensures Spliced(b, o + k, data)[p] == b[p] {
      SplicedOutside(b, o + k, data, p);
    }
  }

  lemma UnitIs(b: seq<uint8>, size: nat, count: nat, i: nat)
    requires count * size <= |b| && i < count
    ensures i * size + size <= |b|
    ensures Units(b, size, count)[i] == UnitAt(b, size, i) == b[i * size..i * size + size]
  {
    UnitInside(size, count, i);
  }

  /** A splice within unit i replaces it and nothing else. */
  lemma UnitSpliced(b: seq<uint8>, size: nat, count: nat, i: nat, k: nat, data: seq<uint8>)
    requires count * size <= |b| && i < count && k + |data| <= size
    ensures i * size + k + |data| <= |b|
    ensures |Units(b, size, count)[i]| == size
    ensures Units(Spliced(b, i * size + k, data), size, count) ==
            Units(b, size, count)[i := Spliced(Units(b, size, count)[i], k, data)]
  {
    UnitIs(b, size, count, i);
    var now := Spliced(b, i * size + k, data);
    hide Spliced, Units, UnitAt;
    UnitIs(now, size, count, i);
    SplicedBeside(b, i * size, size, k, data);
    UnitWritten(b, now, size, count, i);
  }

  lemma ZeroUnit(b: seq<uint8>, size: nat, i: nat)
    requires forall p :: 0 <= p < |b| ==> b[p] == 0
    ensures !IsLeased(UnitAt(b, size, i))
  {
    var u := UnitAt(b, size, i);
    if |u| >= UNIT_HEADER {
      assert u[..4] == FREE;
    }
  }

  lemma UnitSlice(b: seq<uint8>, size: nat, count: nat, i: nat, from: nat, to: nat)
    requires count * size <= |b| && i < count && from <= to <= size
    ensures i * size + size <= |b| && |Units(b, size, count)[i]| == size
    ensures b[i * size + from..i * size + to] == Units(b, size, count)[i][from..to]
  {
    UnitInside(size, count, i);
    SliceOfSlice(b, i * size, size, from, to);
  }

  class Slab {
    const blob: array<uint8>
    const size: nat
    const count: nat

    ghost predicate Valid()
      reads this
    {
      size >= UNIT_HEADER && count * size <= blob.Length
    }

    /** The blob, unit by unit. */
    ghost function All(): (u: seq<seq<uint8>>)
      requires Valid()
      reads this, blob
      ensures |u| == count && forall i :: 0 <= i < count ==> |u[i]| == size
    {
      UnitLengths(blob[..], size, count);
      Units(blob[..], size, count)
    }

    /** slab_init for a blob that holds at least one unit */
    constructor (slabSize: nat, blobSize: nat)
      requires UnitSize(slabSize) <= blobSize
      ensures Valid() && fresh(blob) && size == UnitSize(slabSize) && count == blobSize / size
      ensures forall i :: 0 <= i < count ==> !IsLeased(All()[i])
    {
      blob := new uint8[blobSize](_ => 0);
      size := UnitSize(slabSize);
      count := blobSize / UnitSize(slabSize);
      new;
      Quotient(blobSize, size);
      forall i | 0 <= i < count ensures !IsLeased(UnitAt(blob[..], size, i)) {
        ZeroUnit(blob[..], size, i);
      }
    }

    /** Writes octets within unit i, from its k-th on. */
    method Put(i: nat, k: nat, data: seq<uint8>)
      requires Valid() && i < count && k + |data| <= size
      modifies blob
      ensures All() == old(All())[i := Spliced(old(All())[i], k, data)]
    {
      ghost var was := blob[..];
      UnitSpliced(was, size, count, i, k, data);
      hide Units, UnitAt, Spliced;
      var o := i * size + k;
      for j := 0 to |data|
        invariant blob[..o] == was[..o] && blob[o + j..] == was[o + j..] && blob[o..o + j] == data[..j]
      {
        blob[o + j] := data[j];
      }
      SplicedWhole(was, blob[..], o, data);
    }

    /** slab_alloc: the first unit that is not leased; fails only when all are. */
    method Alloc() returns (ok: bool, unit: nat)
      requires Valid()
      modifies blob
      ensures !ok ==> All() == old(All()) && forall i :: 0 <= i < count ==> IsLeased(All()[i])
      ensures ok ==> unit < count && !IsLeased(old(All())[unit])
      ensures ok ==> forall i :: 0 <= i < unit ==> IsLeased(old(All())[i])
      ensures ok ==> All() == old(All())[unit := Given(old(All())[unit])]
    {
      for i := 0 to count
        invariant blob[..] == old(blob[..])
        invariant forall k :: 0 <= k < i ==> IsLeased(All()[k])
      {
        UnitSlice(blob[..], size, count, i, 0, 4);
        ghost var u := All()[i];
        hide Units, UnitAt, Spliced, Given;
        var o := i * size;
        if blob[o..o + 4] == FREE {
          GivenSplices(u);
          Put(i, 0, LEASED);
          Put(i, 4, CANARY);
          return true, i;
        }
      }
      return false, 0;
    }

    /** slab_free */
    method Free(unit: nat) returns (ok: bool)
      requires Valid() && unit < count
      modifies blob
      ensures ok == HasCanary(old(All())[unit])
      ensures All() == if ok then old(All())[unit := Marked(old(All())[unit], FREE)] else old(All())
    {
      UnitSlice(blob[..], size, count, unit, 4, 8);
      MarkedSplice(All()[unit], FREE);
      hide Units, UnitAt, Spliced, Marked;
      var o := unit * size;
      if blob[o + 4..o + 8] != CANARY {
        return false;
      }
      Put(unit, 0, FREE);
      return true;
    }

    /** What a holder of the unit writes into it. */
    method Store(unit: nat, data: seq<uint8>)
      requires Valid() && unit < count && UNIT_HEADER + |data| <= size
      modifies blob
      ensures All() == old(All())[unit := Holding(old(All())[unit], data)]
    {
      HoldingSplice(All()[unit], data);
      hide Units, UnitAt, Spliced, Holding;
      Put(unit, 8, data);
    }

    method Load(unit: nat, n: nat) returns (data: seq<uint8>)
      requires Valid() && unit < count && UNIT_HEADER + n <= size
      ensures data == All()[unit][8..8 + n]
    {
      UnitSlice(blob[..], size, count, unit, 8, 8 + n);
      hide Units, UnitAt;
      var o := unit * size;
      data := blob[o + 8..o + (8 + n)];
    }
  }

  lemma SplicedWhole(was: seq<uint8>, now: seq<uint8>, o: nat, data: seq<uint8>)
    requires |was| == |now| && o + |data| <= |was|
    requires now[..o] == was[..o] && now[o + |data|..] == was[o + |data|..] && now[o..o + |data|] == data[..|data|]
    ensures now == Spliced(was, o, data)
  {
    assert now == now[..o] + now[o..o + |data|] + now[o + |data|..];
  }

  lemma Quotient(n: nat, d: nat)
    requires d > 0
    ensures n / d * d <= n
  {
  }

  // ----- The pool of one device -----

  /** Exactly the units in the queue are leased, and they bear the canary. */
  ghost predicate Exact(nodes: seq<nat>, units: seq<seq<uint8>>) {
    && (forall k :: 0 <= k < |nodes| ==> nodes[k] < |units| && IsLeased(units[nodes[k]]) && HasCanary(units[nodes[k]]))
    && (forall i: nat :: i < |units| && IsLeased(units[i]) ==> i in nodes)
  }

  /** The first n data octets of the queued units, in the order of the queue. */
  function Items(nodes: seq<nat>, units: seq<seq<uint8>>, n: nat): (items: seq<seq<uint8>>)
    requires forall k :: 0 <= k < |nodes| ==> nodes[k] < |units| && |units[nodes[k]]| >= UNIT_HEADER + n
    ensures |items| == |nodes|
  {
    seq(|nodes|, k requires 0 <= k < |nodes| => units[nodes[k]][8..8 + n])
  }

  lemma LeaseMore(nodes: seq<nat>, units: seq<seq<uint8>>, unit: nat, u: seq<uint8>)
    requires Exact(nodes, units) && unit < |units| && !IsLeased(units[unit]) && IsLeased(u) && HasCanary(u)
    ensures unit !in nodes && Exact(nodes + [unit], units[unit := u])
  {
    hide IsLeased, HasCanary;
    var all, more := nodes + [unit], units[unit := u];
    forall i: nat | i < |more| && IsLeased(more[i]) ensures i in all {
      if i == unit {
        assert all[|nodes|] == unit;
      } else {
        var k :| 0 <= k < |nodes| && nodes[k] == i;
        assert all[k] == i;
      }
    }
  }

  lemma LeaseLess(nodes: seq<nat>, units: seq<seq<uint8>>, u: seq<uint8>)
    requires nodes != [] && Distinct(nodes) && Exact(nodes, units) && !IsLeased(u)
    ensures Exact(nodes[1..], units[nodes[0] := u])
  {
    hide IsLeased, HasCanary;
    var less := units[nodes[0] := u];
    forall i: nat | i < |less| && IsLeased(less[i]) ensures i in nodes[1..] {
      assert i in nodes && i != nodes[0];
    }
  }

  ghost function Members(nodes: seq<nat>): set<nat> { set k | 0 <= k < |nodes| :: nodes[k] }

  lemma {:induction false} MemberCount(nodes: seq<nat>)
    requires Distinct(nodes)
    ensures |Members(nodes)| == |nodes|
    decreases |nodes|
  {
    if nodes == [] {
      assert Members(nodes) == {};
    } else {
      var rest, last := nodes[..|nodes| - 1], nodes[|nodes| - 1];
      MemberCount(rest);
      assert Members(nodes) == Members(rest) + {last};
      assert last !in Members(rest);
    }
  }

  function Below(n: nat): (b: set<nat>)
    ensures |b| == n && forall i :: i in b <==> 0 <= i < n
  {
    if n == 0 then {} else Below(n - 1) + {n - 1}
  }

  lemma AllQueued(nodes: seq<nat>, units: seq<seq<uint8>>)
    requires Exact(nodes, units) && forall i :: 0 <= i < |units| ==> IsLeased(units[i])
    ensures Members(nodes) == Below(|units|)
  {
    hide IsLeased, HasCanary;
    forall i | i in Below(|units|) ensures i in Members(nodes) {
      assert IsLeased(units[i]);
    }
  }

  /** Every unit is leased exactly when the queue is as long as the pool is large. */
  lemma FullExactly(nodes: seq<nat>, units: seq<seq<uint8>>)
    requires Distinct(nodes) && Exact(nodes, units)
    ensures |nodes| <= |units|
    ensures (forall i :: 0 <= i < |units| ==> IsLeased(units[i])) <==> |nodes| == |units|
  {
    hide IsLeased, HasCanary;
    var all := Below(|units|);
    MemberCount(nodes);
    Subset(Members(nodes), all);
    if |nodes| == |units| {
      SameSize(Members(nodes), all);
      forall i | 0 <= i < |units| ensures IsLeased(units[i]) {
        assert i in Members(nodes);
      }
    } else if forall i :: 0 <= i < |units| ==> IsLeased(units[i]) {
      AllQueued(nodes, units);
    }
  }

  lemma {:induction false} Subset(a: set<nat>, b: set<nat>)
    requires a <= b
    ensures |a| <= |b|
    decreases |a|
  {
    if a != {} {
      var x :| x in a;
      Subset(a - {x}, b - {x});
    }
  }

  lemma SameSize(a: set<nat>, b: set<nat>)
    requires a <= b && |a| == |b|
    ensures a == b
  {
    if a != b {
      var x :| x in b && x !in a;
      Subset(a, b - {x});
    }
  }

  lemma ItemsMore(nodes: seq<nat>, units: seq<seq<uint8>>, n: nat, unit: nat, u: seq<uint8>, item: seq<uint8>)
    requires forall i :: 0 <= i < |units| ==> |units[i]| >= UNIT_HEADER + n
    requires forall k :: 0 <= k < |nodes| ==> nodes[k] < |units| && nodes[k] != unit
    requires unit < |units| && |u| >= UNIT_HEADER + n && u[8..8 + n] == item
    ensures Items(nodes + [unit], units[unit := u], n) == Items(nodes, units, n) + [item]
  {
  }

  lemma ItemsLess(nodes: seq<nat>, units: seq<seq<uint8>>, n: nat, u: seq<uint8>)
    requires forall i :: 0 <= i < |units| ==> |units[i]| >= UNIT_HEADER + n
    requires nodes != [] && Distinct(nodes) && forall k :: 0 <= k < |nodes| ==> nodes[k] < |units|
    requires |u| >= UNIT_HEADER + n
    ensures Items(nodes, units, n) == [units[nodes[0]][8..8 + n]] + Items(nodes[1..], units[nodes[0] := u], n)
  {
  }

  /** A queue of items of itemSize octets each, kept in the units of a slab. */
  class Pool {
    const list: List
    const slab: Slab
    const itemSize: nat

    ghost predicate Valid()
      reads this, list, list.next, list.prev, slab, slab.blob
    {
      && list.Valid() && slab.Valid() && UNIT_HEADER + itemSize <= slab.size
      && slab.count == list.next.Length
      && Exact(list.nodes, slab.All())
    }

    /** What waits in the queue, oldest first. */
    ghost function Contents(): (c: seq<seq<uint8>>)
      requires Valid()
      reads this, list, list.next, list.prev, slab, slab.blob
      ensures |c| == |list.nodes|
    {
      Items(list.nodes, slab.All(), itemSize)
    }

    /** How many items the pool can hold. */
    ghost function Capacity(): nat
      reads this, slab
    {
      slab.count
    }

    ghost function Repr(): set<object>
      reads this, list, slab
    {
      {list, list.next, list.prev, slab.blob}
    }

    constructor (itemSize: nat, blobSize: nat)
      requires UnitSize(itemSize) <= blobSize
      ensures Valid() && Contents() == [] && fresh(Repr())
      ensures this.itemSize == itemSize && Capacity() == blobSize / UnitSize(itemSize)
    {
      hide Linked, IsLeased;
      UnitHolds(itemSize);
      var s := new Slab(itemSize, blobSize);
      var l := new List(s.count);
      slab, list, this.itemSize := s, l, itemSize;
    }

    lemma ListFacts()
      requires Valid()
      ensures Distinct(list.nodes) && forall k :: 0 <= k < |list.nodes| ==> list.nodes[k] < slab.count
    {
      ChainEnds(list.nodes, list.head, list.tail, list.next[..], list.prev[..]);
    }

    /** cp_submit_command and osdp_pd_submit_event: fails only when the pool is full. */
    method Submit(item: seq<uint8>) returns (ok: bool)
      requires Valid() && |item| == itemSize
      modifies Repr()
      ensures Valid() && ok == (|old(Contents())| < Capacity())
      ensures Contents() == if ok then old(Contents()) + [item] else old(Contents())
    {
      hide Linked, IsLeased, HasCanary, Given, Holding;
      ListFacts();
      FullExactly(list.nodes, slab.All());
      ghost var nodes, units := list.nodes, slab.All();
      var unit;
      ok, unit := slab.Alloc();
      if !ok {
        return;
      }
      slab.Store(unit, item);
      ghost var u := Holding(Given(units[unit]), item);
      HeldUnit(units[unit], item);
      LeaseMore(nodes, units, unit, u);
      ItemsMore(nodes, units, itemSize, unit, u, item);
      assert slab.All() == units[unit := u];
      list.Append(unit);
    }

    /** The queue's head leaves and its unit is free again. */
    method Dequeue() returns (ok: bool, item: seq<uint8>)
      requires Valid()
      modifies Repr()
      ensures Valid() && ok == (old(Contents()) != [])
      ensures ok ==> old(Contents()) == [item] + Contents()
      ensures !ok ==> Contents() == old(Contents())
    {
      hide Linked, IsLeased, HasCanary, Marked;
      ListFacts();
      ghost var nodes, units := list.nodes, slab.All();
      item := [];
      var node;
      ok, node := list.PopLeft();
      if !ok {
        return;
      }
      assert list.nodes == nodes[1..] && nodes[0] == node;
      item := slab.Load(node, itemSize);
      var freed := slab.Free(node);
      assert freed;
      FreedUnit(units[node]);
      LeaseLess(nodes, units, Marked(units[node], FREE));
      ItemsLess(nodes, units, itemSize, Marked(units[node], FREE));
    }

    /** osdp_cp_flush_commands and osdp_pd_flush_events: everything leaves, and the
        number of items that did is returned. */
    method Flush() returns (count: nat)
      requires Valid()
      modifies Repr()
      ensures Valid() && Contents() == [] && count == |old(Contents())|
      ensures forall i :: 0 <= i < slab.count ==> !IsLeased(slab.All()[i])
    {
      hide Linked, IsLeased, HasCanary;
      count := 0;
      var more := true;
      while more
        invariant Valid() && count + |Contents()| == |old(Contents())| && (more || Contents() == [])
        decreases more, |Contents()|
      {
        var ok, _ := Dequeue();
        if ok {
          count := count + 1;
        } else {
          more := false;
        }
      }
    }
  }

  lemma HeldUnit(u: seq<uint8>, item: seq<uint8>)
    requires |u| >= UNIT_HEADER + |item|
    ensures var h := Holding(Given(u), item);
      |h| == |u| && IsLeased(h) && HasCanary(h) && h[8..8 + |item|] == item
  {
    var h := Holding(Given(u), item);
    assert h[..4] == LEASED && h[4..8] == CANARY;
  }

  lemma FreedUnit(u: seq<uint8>)
    requires |u| >= UNIT_HEADER
    ensures !IsLeased(Marked(u, FREE)) && |Marked(u, FREE)| == |u|
  {
    assert Marked(u, FREE)[..4] == FREE;
  }

  // ----- Any run of submissions, removals and flushes -----

  datatype Op = Submitted(item: seq<uint8>) | Taken | Flushed

  /** The queue of a pool of n units after one operation. */
  function After(n: nat, q: seq<seq<uint8>>, op: Op): seq<seq<uint8>> {
    match op
    case Submitted(item) => if |q| < n then q + [item] else q
    case Taken => if q == [] then q else q[1..]
    case Flushed => []
  }

  /** What one operation takes in, and what leaves the queue by it. */
  function Entering(n: nat, q: seq<seq<uint8>>, op: Op): seq<seq<uint8>> {
    if op.Submitted? && |q| < n then [op.item] else []
  }

  function Leaving(q: seq<seq<uint8>>, op: Op): seq<seq<uint8>> {
    if op.Taken? && q != [] then q[..1] else if op.Flushed? then q else []
  }

  /** After a run: the queue, everything that was accepted, everything that left. */
  datatype History = History(queue: seq<seq<uint8>>, accepted: seq<seq<uint8>>, left: seq<seq<uint8>>)

  function Past(n: nat, ops: seq<Op>): History {
    if ops == [] then History([], [], [])
    else
      var h, op := Past(n, ops[..|ops| - 1]), ops[|ops| - 1];
      History(After(n, h.queue, op), h.accepted + Entering(n, h.queue, op), h.left + Leaving(h.queue, op))
  }

  /** Items leave in the order of their submission, each exactly once: what left, then
      what still waits, is what was accepted. */
  lemma {:induction false} FirstInFirstOut(n: nat, ops: seq<Op>)
    ensures var h := Past(n, ops); h.left + h.queue == h.accepted && |h.queue| <= n
  {
    if ops != [] {
      var h, op := Past(n, ops[..|ops| - 1]), ops[|ops| - 1];
      FirstInFirstOut(n, ops[..|ops| - 1]);
      hide Past;
      Balanced(n, h.queue, h.left, op);
    }
  }

  lemma Balanced(n: nat, q: seq<seq<uint8>>, left: seq<seq<uint8>>, op: Op)
    requires |q| <= n
    ensures left + Leaving(q, op) + After(n, q, op) == left + q + Entering(n, q, op) && |After(n, q, op)| <= n
  {
  }

  lemma PastStep(n: nat, ops: seq<Op>, i: nat)
    requires i < |ops|
    ensures var h := Past(n, ops[..i]);
      Past(n, ops[..i + 1]) ==
      History(After(n, h.queue, ops[i]), h.accepted + Entering(n, h.queue, ops[i]), h.left + Leaving(h.queue, ops[i]))
  {
    assert ops[..i + 1][..i] == ops[..i];
  }

  /** One operation, carried out on the pool; a flush hands nothing to its caller. */
  method Apply(pool: Pool, op: Op) returns (taken: seq<seq<uint8>>)
    requires pool.Valid() && (op.Submitted? ==> |op.item| == pool.itemSize)
    modifies pool.Repr()
    ensures pool.Valid() && pool.Contents() == After(pool.Capacity(), old(pool.Contents()), op)
    ensures taken == if op.Flushed? then [] else Leaving(old(pool.Contents()), op)
  {
    hide Pool.Valid, Pool.Contents;
    taken := [];
    match op {
      case Submitted(item) =>
        var _ := pool.Submit(item);
      case Taken =>
        var ok, item := pool.Dequeue();
        if ok {
          taken := [item];
        }
      case Flushed =>
        var _ := pool.Flush();
    }
  }

  /** A run carried out on the pool itself ends with the queue that the history says and
      with exactly its units leased. Without a flush, the items handed out, then the
      items still queued, are the accepted submissions in their order. */
  method Perform(pool: Pool, ops: seq<Op>) returns (taken: seq<seq<uint8>>)
    requires pool.Valid() && pool.Contents() == []
    requires forall i :: 0 <= i < |ops| && ops[i].Submitted? ==> |ops[i].item| == pool.itemSize
    modifies pool.Repr()
    ensures pool.Valid() && Exact(pool.list.nodes, pool.slab.All())
    ensures pool.Contents() == Past(pool.Capacity(), ops).queue
    ensures Flushed !in ops ==> taken == Past(pool.Capacity(), ops).left
    ensures Flushed !in ops ==> taken + pool.Contents() == Past(pool.Capacity(), ops).accepted
  {
    taken := [];
    for i := 0 to |ops|
      invariant pool.Valid() && pool.Contents() == Past(pool.Capacity(), ops[..i]).queue
      invariant Flushed !in ops ==> taken == Past(pool.Capacity(), ops[..i]).left
    {
      PastStep(pool.Capacity(), ops, i);
      assert ops[i] in ops;
      hide *;
      var more := Apply(pool, ops[i]);
      taken := taken + more;
    }
    assert ops[..|ops|] == ops;
    FirstInFirstOut(pool.Capacity(), ops);
  }
}
