/** utils/disjoint_set.c: union by rank with path compression. */
module DisjointSet {
  // ----- Forests -----

  function MaxRank(rank: seq<nat>): (m: nat)
    ensures forall i :: 0 <= i < |rank| ==> rank[i] <= m
  {
    if rank == [] then 0
    else
      var m := MaxRank(rank[..|rank| - 1]);
      if rank[|rank| - 1] > m then rank[|rank| - 1] else m
  }

  /** Ranks grow strictly along the links, so that every path ends in a root. */
  ghost predicate Forest(parent: seq<nat>, rank: seq<nat>) {
    && |parent| == |rank|
    && (forall i :: 0 <= i < |parent| ==> parent[i] < |parent|)
    && (forall i :: 0 <= i < |parent| && parent[i] != i ==> rank[i] < rank[parent[i]])
  }

  ghost function Root(parent: seq<nat>, rank: seq<nat>, i: nat): (r: nat)
    requires Forest(parent, rank) && i < |parent|
    ensures r < |parent| && parent[r] == r
    ensures rank[i] <= rank[r] && (i != r ==> rank[i] < rank[r])
    decreases MaxRank(rank) - rank[i]
  {
    if parent[i] == i then i else Root(parent, rank, parent[i])
  }

  /** The number of links from i to its root. */
  ghost function Depth(parent: seq<nat>, rank: seq<nat>, i: nat): (d: nat)
    requires Forest(parent, rank) && i < |parent|
    ensures rank[i] + d <= rank[Root(parent, rank, i)]
    decreases MaxRank(rank) - rank[i]
  {
    if parent[i] == i then 0 else 1 + Depth(parent, rank, parent[i])
  }

  /** The class of a root. */
  ghost function Class(parent: seq<nat>, rank: seq<nat>, r: nat): set<nat>
    requires Forest(parent, rank)
  {
    set i: nat | i < |parent| && Root(parent, rank, i) == r
  }

  function Pow2(n: nat): (p: nat)
    ensures p > 0
  {
    if n == 0 then 1 else 2 * Pow2(n - 1)
  }

  /** A class under a root of rank r has at least 2^r members. */
  ghost predicate Populated(parent: seq<nat>, rank: seq<nat>)
    requires Forest(parent, rank)
  {
    forall r: nat :: r < |parent| && parent[r] == r ==> Pow2(rank[r]) <= |Class(parent, rank, r)|
  }

  // ----- Path compression -----

  /** Linking a node directly to its root changes no root, nor any other link. */
  lemma {:induction false} CompressKeeps(parent: seq<nat>, rank: seq<nat>, a: nat, i: nat)
    requires Forest(parent, rank) && a < |parent| && i < |parent|
    ensures var p := parent[a := Root(parent, rank, a)];
      Forest(p, rank) && Root(p, rank, i) == Root(parent, rank, i)
    decreases MaxRank(rank) - rank[i]
  {
    var p := parent[a := Root(parent, rank, a)];
    assert Forest(p, rank);
    if i != a && parent[i] != i {
      CompressKeeps(parent, rank, a, parent[i]);
    }
  }

  lemma CompressKeepsAll(parent: seq<nat>, rank: seq<nat>, a: nat)
    requires Forest(parent, rank) && a < |parent|
    ensures var p := parent[a := Root(parent, rank, a)];
      && Forest(p, rank)
      && (forall i: nat :: i < |parent| ==> Root(p, rank, i) == Root(parent, rank, i))
      && (forall r: nat :: Class(p, rank, r) == Class(parent, rank, r))
      && (forall r: nat :: r < |parent| ==> (p[r] == r <==> parent[r] == r))
  {
    var p := parent[a := Root(parent, rank, a)];
    CompressKeeps(parent, rank, a, a);
    forall i: nat | i < |parent| ensures Root(p, rank, i) == Root(parent, rank, i) {
      CompressKeeps(parent, rank, a, i);
    }
  }

  // ----- Union -----

  function LinkedRank(rank: seq<nat>, a: nat, b: nat): seq<nat>
    requires a < |rank| && b < |rank|
  {
    if rank[a] == rank[b] then rank[a := rank[a] + 1] else rank
  }

  /** Hanging the root b under the root a, whose rank is no lower, moves exactly the
      class of b. */
  lemma {:induction false} LinkKeeps(parent: seq<nat>, rank: seq<nat>, a: nat, b: nat, i: nat)
    requires Forest(parent, rank) && a < |parent| && b < |parent| && i < |parent|
    requires parent[a] == a && parent[b] == b && a != b && rank[b] <= rank[a]
    ensures var p, k := parent[b := a], LinkedRank(rank, a, b);
      Forest(p, k) && Root(p, k, i) == if Root(parent, rank, i) == b then a else Root(parent, rank, i)
    decreases MaxRank(rank) - rank[i]
  {
    var p, k := parent[b := a], LinkedRank(rank, a, b);
    assert Forest(p, k);
    if parent[i] != i {
      LinkKeeps(parent, rank, a, b, parent[i]);
    }
  }

  lemma LinkKeepsAll(parent: seq<nat>, rank: seq<nat>, a: nat, b: nat)
    requires Forest(parent, rank) && a < |parent| && b < |parent|
    requires parent[a] == a && parent[b] == b && a != b && rank[b] <= rank[a]
    ensures var p, k := parent[b := a], LinkedRank(rank, a, b);
      && Forest(p, k)
      && forall i: nat :: i < |parent| ==>
           Root(p, k, i) == if Root(parent, rank, i) == b then a else Root(parent, rank, i)
  {
    LinkKeeps(parent, rank, a, b, a);
    var p, k := parent[b := a], LinkedRank(rank, a, b);
    forall i: nat | i < |parent|
      ensures Root(p, k, i) == if Root(parent, rank, i) == b then a else Root(parent, rank, i)
    {
      LinkKeeps(parent, rank, a, b, i);
    }
  }

  lemma LinkedClasses(parent: seq<nat>, rank: seq<nat>, a: nat, b: nat)
    requires Forest(parent, rank) && a < |parent| && b < |parent|
    requires parent[a] == a && parent[b] == b && a != b && rank[b] <= rank[a]
    ensures var p, k := parent[b := a], LinkedRank(rank, a, b);
      && Forest(p, k)
      && Class(p, k, a) == Class(parent, rank, a) + Class(parent, rank, b)
      && forall r: nat :: r != a && r != b ==> Class(p, k, r) == Class(parent, rank, r)
  {
    LinkKeepsAll(parent, rank, a, b);
  }

  lemma LinkPopulates(parent: seq<nat>, rank: seq<nat>, a: nat, b: nat)
    requires Forest(parent, rank) && Populated(parent, rank) && a < |parent| && b < |parent|
    requires parent[a] == a && parent[b] == b && a != b && rank[b] <= rank[a]
    ensures var p, k := parent[b := a], LinkedRank(rank, a, b);
      Forest(p, k) && Populated(p, k)
  {
    var p, k := parent[b := a], LinkedRank(rank, a, b);
    LinkedClasses(parent, rank, a, b);
    forall r: nat | r < |p| && p[r] == r ensures Pow2(k[r]) <= |Class(p, k, r)| {
      if r == a {
        UnitedClass(parent, rank, a, b);
      }
    }
  }

  lemma UnitedClass(parent: seq<nat>, rank: seq<nat>, a: nat, b: nat)
    requires Forest(parent, rank) && Populated(parent, rank) && a < |parent| && b < |parent|
    requires parent[a] == a && parent[b] == b && a != b && rank[b] <= rank[a]
    ensures Pow2(LinkedRank(rank, a, b)[a]) <= |Class(parent, rank, a) + Class(parent, rank, b)|
  {
    hide Pow2, Root;
    var ca, cb := Class(parent, rank, a), Class(parent, rank, b);
    assert ca !! cb;
    assert Pow2(rank[a]) <= |ca| && Pow2(rank[b]) <= |cb|;
    DoubledPopulation(rank[a], rank[b], ca, cb);
  }

  lemma DoubledPopulation(ra: nat, rb: nat, ca: set<nat>, cb: set<nat>)
    requires rb <= ra && ca !! cb && Pow2(ra) <= |ca| && Pow2(rb) <= |cb|
    ensures Pow2(if ra == rb then ra + 1 else ra) <= |ca + cb|
  {
    assert |ca + cb| == |ca| + |cb|;
  }

  // ----- Consequences -----

  /** A path is no longer than the logarithm of the number of nodes. */
  lemma DepthIsLogarithmic(parent: seq<nat>, rank: seq<nat>, i: nat)
    requires Forest(parent, rank) && Populated(parent, rank) && i < |parent|
    ensures Pow2(Depth(parent, rank, i)) <= |parent|
  {
    var r := Root(parent, rank, i);
    Pow2Monotone(Depth(parent, rank, i), rank[r]);
    ClassSize(Class(parent, rank, r), |parent|);
  }

  lemma {:induction false} Pow2Monotone(m: nat, n: nat)
    requires m <= n
    ensures Pow2(m) <= Pow2(n)
    decreases n - m
  {
    if m < n {
      Pow2Monotone(m, n - 1);
    }
  }

  /** A set of numbers below n has at most n members. */
  lemma {:induction false} ClassSize(c: set<nat>, n: nat)
    requires forall i :: i in c ==> i < n
    ensures |c| <= n
    decreases n
  {
    if n == 0 {
      assert c == {};
    } else {
      var rest := c - {n - 1};
      ClassSize(rest, n - 1);
      assert c <= rest + {n - 1};
      assert |c| <= |rest| + 1 by {
        if n - 1 in c {
          assert c == rest + {n - 1};
        } else {
          assert c == rest;
        }
      }
    }
  }

  ghost function RootSet(parent: seq<nat>, n: nat): set<nat>
    requires n <= |parent|
  {
    set i: nat | i < n && parent[i] == i
  }

  /** The root of every node. */
  ghost function Labels(parent: seq<nat>, rank: seq<nat>): (l: seq<nat>)
    requires Forest(parent, rank)
    ensures |l| == |parent|
  {
    seq(|parent|, i requires 0 <= i < |parent| => Root(parent, rank, i))
  }

  /** Two nodes are together afterwards exactly when they were before, or one was with
      x and the other with y. */
  ghost predicate Joined(before: seq<nat>, after: seq<nat>, x: nat, y: nat)
    requires x < |before| == |after| && y < |before|
  {
    forall i: nat, j: nat :: i < |before| && j < |before| ==>
      (after[i] == after[j] <==>
        || before[i] == before[j]
        || (before[i] == before[x] && before[j] == before[y])
        || (before[i] == before[y] && before[j] == before[x]))
  }

  lemma LinkJoins(parent: seq<nat>, rank: seq<nat>, a: nat, b: nat, x: nat, y: nat)
    requires Forest(parent, rank) && a < |parent| && b < |parent| && x < |parent| && y < |parent|
    requires parent[a] == a && parent[b] == b && a != b && rank[b] <= rank[a]
    requires var l := Labels(parent, rank); (l[x] == a && l[y] == b) || (l[x] == b && l[y] == a)
    ensures Forest(parent[b := a], LinkedRank(rank, a, b))
    ensures Joined(Labels(parent, rank), Labels(parent[b := a], LinkedRank(rank, a, b)), x, y)
  {
    LinkKeepsAll(parent, rank, a, b);
  }

  lemma CompressKeepsLabels(parent: seq<nat>, rank: seq<nat>, a: nat)
    requires Forest(parent, rank) && Populated(parent, rank) && a < |parent|
    ensures var p := parent[a := Root(parent, rank, a)];
      Forest(p, rank) && Populated(p, rank) && Labels(p, rank) == Labels(parent, rank)
  {
    CompressKeepsAll(parent, rank, a);
  }

  // ----- The functions of disjoint_set.c, in place -----

  class Nodes {
    const maxNodes: nat
    const parent: array<nat>
    const rank: array<nat>

    ghost predicate Valid()
      reads this, parent, rank
    {
      && parent != rank && parent.Length == rank.Length == maxNodes
      && Forest(parent[..], rank[..]) && Populated(parent[..], rank[..])
    }

    ghost function Roots(): (l: seq<nat>)
      requires Valid()
      reads this, parent, rank
      ensures |l| == maxNodes
    {
      Labels(parent[..], rank[..])
    }

    /** disjoint_set_make */
    constructor (maxNodes: nat)
      ensures Valid() && fresh(parent) && fresh(rank) && this.maxNodes == maxNodes
      ensures Roots() == seq(maxNodes, i => i)
    {
      this.maxNodes := maxNodes;
      parent := new nat[maxNodes](i => i);
      rank := new nat[maxNodes](_ => 0);
      new;
      ghost var p, k := parent[..], rank[..];
      assert Forest(p, k);
      forall r: nat | r < |p| && p[r] == r ensures Pow2(k[r]) <= |Class(p, k, r)| {
        assert Class(p, k, r) == {r};
      }
    }

    /** disjoint_set_find: the root, after at most log2(n) links; every node on the way
        hangs directly under it afterwards, and the classes are what they were. */
    method Find(a: nat) returns (root: nat, ghost steps: nat)
      requires Valid() && a < maxNodes
      modifies parent
      ensures Valid() && root == old(Roots())[a] && Roots() == old(Roots())
      ensures root < maxNodes && parent[root] == root
      ensures Pow2(steps) <= maxNodes
    {
      hide Populated;
      ghost var p, k := parent[..], rank[..];
      DepthIsLogarithmic(p, k, a);
      steps := 0;
      root := a;
      while parent[root] != root
        invariant root < maxNodes && parent[..] == p
        invariant Root(p, k, root) == Root(p, k, a) && steps + Depth(p, k, root) == Depth(p, k, a)
        decreases MaxRank(k) - k[root]
      {
        root := parent[root];
        steps := steps + 1;
      }
      Compress(a, root);
    }

    /** The second loop of disjoint_set_find. */
    method Compress(from: nat, root: nat)
      requires Valid() && from < maxNodes && root == Roots()[from]
      modifies parent
      ensures Valid() && Roots() == old(Roots()) && parent[root] == root
    {
      hide Populated;
      var a: nat := from;
      while parent[a] != root
        invariant Valid() && a < maxNodes && Roots()[a] == root && Roots() == old(Roots())
        decreases MaxRank(rank[..]) - rank[a]
      {
        CompressKeepsLabels(parent[..], rank[..], a);
        var tmp := parent[a];
        assert Roots()[tmp] == root;
        parent[a] := root;
        a := tmp;
      }
      assert parent[..][root] == root;
    }

    /** disjoint_set_union: exactly the two classes become one. */
    method Union(x: nat, y: nat)
      requires Valid() && x < maxNodes && y < maxNodes
      modifies parent, rank
      ensures Valid() && Joined(old(Roots()), Roots(), x, y)
    {
      var a, _ := Find(x);
      var b, _ := Find(y);
      if a == b {
        return;
      }
      if rank[a] < rank[b] {
        a, b := b, a;
      }
      Link(a, b, x, y);
    }

    /** The end of disjoint_set_union: the root b goes under the root a. */
    method Link(a: nat, b: nat, ghost x: nat, ghost y: nat)
      requires Valid() && a < maxNodes && b < maxNodes && a != b && x < maxNodes && y < maxNodes
      requires parent[a] == a && parent[b] == b && rank[b] <= rank[a]
      requires (Roots()[x] == a && Roots()[y] == b) || (Roots()[x] == b && Roots()[y] == a)
      modifies parent, rank
      ensures Valid() && Joined(old(Roots()), Roots(), x, y)
    {
      hide Populated, Joined;
      LinkJoins(parent[..], rank[..], a, b, x, y);
      LinkPopulates(parent[..], rank[..], a, b);
      ghost var p, k := parent[..][b := a], LinkedRank(rank[..], a, b);
      parent[b] := a;
      if rank[a] == rank[b] {
        rank[a] := rank[a] + 1;
      }
      assert parent[..] == p && rank[..] == k;
    }

    /** disjoint_set_num_roots */
    method NumRoots() returns (roots: nat)
      requires Valid()
      ensures roots == |RootSet(parent[..], maxNodes)|
    {
      hide Populated, Forest;
      roots := 0;
      for i := 0 to maxNodes
        invariant roots == |RootSet(parent[..], i)|
      {
        ghost var before := RootSet(parent[..], i);
        if parent[i] == i {
          assert RootSet(parent[..], i + 1) == before + {i};
          roots := roots + 1;
        } else {
          assert RootSet(parent[..], i + 1) == before;
        }
      }
    }
  }
}
