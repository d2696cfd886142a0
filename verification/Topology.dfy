/** cp_detect_connection_topology of osdp_cp.c: which devices share a channel, and
    how many channels there are. */
module Topology {
  import D = DisjointSet
  import B = Bus

  const DISJOINT_SET_MAX: nat := 128

  /** Somebody before index k, other than x, has x's channel. */
  ghost predicate HasPeer(channels: seq<int>, x: nat, k: nat)
    requires x < |channels| && k <= |channels|
  {
    exists y: nat :: y < k && y != x && channels[y] == channels[x]
  }

  /** The partition when the devices before i have been compared with each other and
      device i with those before j. */
  ghost predicate Related(channels: seq<int>, i: nat, j: nat, x: nat, y: nat)
    requires i <= |channels| && j <= i && x < |channels| && y < |channels|
  {
    || x == y
    || (x < i && y < i && channels[x] == channels[y])
    || (i < |channels| && HasPeer(channels, i, j) &&
        ((x == i && y < i && channels[y] == channels[i]) || (y == i && x < i && channels[x] == channels[i])))
  }

  ghost predicate Partition(labels: seq<nat>, channels: seq<int>, i: nat, j: nat)
    requires i <= |channels| == |labels| && j <= i
  {
    forall x: nat, y: nat :: x < |channels| && y < |channels| ==>
      (labels[x] == labels[y] <==> Related(channels, i, j, x, y))
  }

  ghost predicate Flagged(shared: seq<bool>, channels: seq<int>, i: nat, j: nat)
    requires i <= |channels| == |shared| && j <= i
  {
    forall x: nat :: x < |channels| ==>
      (shared[x] <==>
        || (x < i && HasPeer(channels, x, i))
        || (x < j && i < |channels| && channels[x] == channels[i])
        || (x == i && HasPeer(channels, i, j)))
  }

  lemma JoinStep(before: seq<nat>, after: seq<nat>, channels: seq<int>, i: nat, j: nat)
    requires i < |channels| == |before| == |after| && j < i && channels[j] == channels[i]
    requires Partition(before, channels, i, j) && D.Joined(before, after, i, j)
    ensures Partition(after, channels, i, j + 1)
  {
  }

  lemma SkipStep(labels: seq<nat>, channels: seq<int>, i: nat, j: nat)
    requires i < |channels| == |labels| && j < i && channels[j] != channels[i]
    requires Partition(labels, channels, i, j)
    ensures Partition(labels, channels, i, j + 1)
  {
  }

  lemma NextDevice(labels: seq<nat>, channels: seq<int>, i: nat)
    requires i < |channels| == |labels|
    requires Partition(labels, channels, i, i)
    ensures Partition(labels, channels, i + 1, 0)
  {
  }

  lemma FlagStep(shared: seq<bool>, channels: seq<int>, i: nat, j: nat)
    requires i < |channels| == |shared| && j < i && Flagged(shared, channels, i, j)
    ensures Flagged(if channels[j] == channels[i] then shared[j := true][i := true] else shared, channels, i, j + 1)
  {
  }

  lemma FlagNext(shared: seq<bool>, channels: seq<int>, i: nat)
    requires i < |channels| == |shared| && Flagged(shared, channels, i, i)
    ensures Flagged(shared, channels, i + 1, 0)
  {
  }

  // ----- Counting -----

  function Values(channels: seq<int>): set<int> {
    set x: nat | x < |channels| :: channels[x]
  }

  ghost predicate Injective(c: seq<int>, r: set<nat>) {
    && (forall x :: x in r ==> x < |c|)
    && (forall x, y :: x in r && y in r && c[x] == c[y] ==> x == y)
  }

  ghost function Image(c: seq<int>, r: set<nat>): set<int>
    requires forall x :: x in r ==> x < |c|
  {
    set x | x in r :: c[x]
  }

  lemma {:induction false} ImageSize(c: seq<int>, r: set<nat>)
    requires Injective(c, r)
    ensures |Image(c, r)| == |r|
    decreases r
  {
    if r == {} {
      assert Image(c, r) == {};
    } else {
      var x :| x in r;
      var rest := r - {x};
      ImageSize(c, rest);
      assert Image(c, r) == Image(c, rest) + {c[x]};
      assert c[x] !in Image(c, rest);
    }
  }

  /** One root per channel. */
  lemma RootsAreChannels(parent: seq<nat>, rank: seq<nat>, channels: seq<int>)
    requires D.Forest(parent, rank) && |parent| == |channels|
    requires forall x: nat, y: nat :: x < |channels| && y < |channels| ==>
      (D.Labels(parent, rank)[x] == D.Labels(parent, rank)[y] <==> channels[x] == channels[y])
    ensures |D.RootSet(parent, |parent|)| == |Values(channels)|
  {
    var roots, labels := D.RootSet(parent, |parent|), D.Labels(parent, rank);
    forall x, y | x in roots && y in roots && channels[x] == channels[y] ensures x == y {
      assert labels[x] == x && labels[y] == y;
    }
    ImageSize(channels, roots);
    forall v | v in Values(channels) ensures v in Image(channels, roots) {
      var x: nat :| x < |channels| && channels[x] == v;
      assert labels[labels[x]] == labels[x];
      assert labels[x] in roots;
    }
    assert Image(channels, roots) == Values(channels);
  }

  /** A device is marked exactly when another one has its channel. */
  ghost predicate SharedExact(shared: seq<bool>, channels: seq<int>)
    requires |shared| == |channels|
  {
    forall x: nat :: x < |channels| ==> (shared[x] <==> HasPeer(channels, x, |channels|))
  }

  /** cp_detect_connection_topology: fails only for more devices than the nodes of the
      disjoint set; otherwise counts the distinct channels and marks exactly the
      devices that share one. */
  method Detect(channels: seq<int>) returns (ok: bool, shared: seq<bool>, numChannels: nat)
    ensures ok == (|channels| < DISJOINT_SET_MAX)
    ensures ok ==> |shared| == |channels| && SharedExact(shared, channels)
    ensures ok ==> numChannels == |Values(channels)|
  {
    hide D.Joined, D.Labels, HasPeer;
    var n := |channels|;
    shared := seq(n, _ => false);
    numChannels := 0;
    if n >= DISJOINT_SET_MAX {
      return false, shared, 0;
    }
    var nodes := new D.Nodes(n);
    StartAlone(channels);
    for i := 0 to n
      invariant nodes.Valid() && nodes.maxNodes == n && |shared| == n && fresh(nodes.parent) && fresh(nodes.rank)
      invariant Partition(nodes.Roots(), channels, i, 0) && Flagged(shared, channels, i, 0)
    {
      for j := 0 to i
        invariant nodes.Valid() && nodes.maxNodes == n && |shared| == n && fresh(nodes.parent) && fresh(nodes.rank)
        invariant Partition(nodes.Roots(), channels, i, j) && Flagged(shared, channels, i, j)
      {
        FlagStep(shared, channels, i, j);
        if channels[j] == channels[i] {
          shared := shared[j := true];
          shared := shared[i := true];
          ghost var before := nodes.Roots();
          nodes.Union(i, j);
          JoinStep(before, nodes.Roots(), channels, i, j);
        } else {
          SkipStep(nodes.Roots(), channels, i, j);
        }
      }
      NextDevice(nodes.Roots(), channels, i);
      FlagNext(shared, channels, i);
    }
    numChannels := nodes.NumRoots();
    AllCompared(nodes.Roots(), shared, channels);
    RootsAreChannels(nodes.parent[..], nodes.rank[..], channels);
    ok := true;
  }

  lemma StartAlone(channels: seq<int>)
    ensures Partition(seq(|channels|, i => i), channels, 0, 0)
    ensures Flagged(seq(|channels|, _ => false), channels, 0, 0)
  {
  }

  lemma AllCompared(labels: seq<nat>, shared: seq<bool>, channels: seq<int>)
    requires |labels| == |shared| == |channels|
    requires Partition(labels, channels, |channels|, 0) && Flagged(shared, channels, |channels|, 0)
    ensures SharedExact(shared, channels)
    ensures forall x: nat, y: nat :: x < |channels| && y < |channels| ==>
      (labels[x] == labels[y] <==> channels[x] == channels[y])
  {
  }

  /** The marks are what the channel locks rely on. */
  lemma DetectedWiring(ports: seq<B.Port>, channels: seq<int>, shared: seq<bool>)
    requires |ports| == |channels| == |shared| && SharedExact(shared, channels)
    requires forall i :: 0 <= i < |ports| ==> ports[i].channel == channels[i] && ports[i].shared == shared[i]
    requires forall i :: 0 <= i < |ports| && shared[i] ==> channels[i] != 0
    ensures B.Wired(ports)
  {
    forall i: nat, j: nat | i < |ports| && j < |ports| && i != j && ports[i].channel == ports[j].channel
      ensures ports[i].shared && ports[j].shared
    {
      assert HasPeer(channels, i, |channels|) && HasPeer(channels, j, |channels|);
    }
  }
}
