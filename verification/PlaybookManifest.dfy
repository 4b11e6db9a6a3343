/**
 The manifest validator's depth-first cycle check and its layered node order.
 The check accepts exactly the acyclic closed graphs that every theorem about the
 runner asks for.
 */
module PlaybookManifest {
  import opened PlaybookDag

  /** Every ranking of the graph puts `node` strictly below everything in `path`. */
  ghost predicate LowerThan(dag: Dag, node: nat, path: set<nat>) {
    forall rank, v | Ranks(dag, rank) && v in path :: node in rank && v in rank && rank[node] < rank[v]
  }

  /** `rank` ranks the nodes it covers and everything they depend on, below `height`. */
  ghost predicate PartialRank(dag: Dag, rank: map<nat, nat>, height: nat) {
    && rank.Keys <= dag.Nodes()
    && (forall i | i in rank :: rank[i] < height)
    && forall i, d {:trigger DependsOn(dag, i, d)} | i in rank && DependsOn(dag, i, d) ::
         d in rank && rank[d] < rank[i]
  }

  /** The two sets `visit` updates, with a ghost ranking of the visited nodes. */
  class CycleCheck {
    const dag: Dag
    var visiting: set<nat>
    var visited: set<nat>
    ghost var rank: map<nat, nat>
    ghost var height: nat

    ghost predicate Valid()
      reads this
    {
      dag.Closed() && visited == rank.Keys && visiting !! visited && PartialRank(dag, rank, height)
    }

    constructor (dag: Dag)
      requires dag.Closed()
      ensures Valid() && this.dag == dag && visiting == visited == {}
    {
      this.dag := dag;
      visiting, visited, rank, height := {}, {}, map[], 0;
    }

    /** Explores everything `node` depends on; refuses when it comes back to its own path. */
    method Visit(node: nat) returns (ok: bool)
      requires Valid() && node in dag.Nodes() && LowerThan(dag, node, visiting)
      modifies this
      ensures ok ==> Valid() && visiting == old(visiting) && old(visited) <= visited && node in visited
      ensures !ok ==> !Acyclic(dag)
      decreases |dag.Nodes() - visiting|, 1
    {
      if node in visiting {
        return false;
      }
      if node in visited {
        return true;
      }
      assert |dag.Nodes() - (visiting + {node})| < |dag.Nodes() - visiting| by {
        SubsetSize(dag.Nodes() - (visiting + {node}), dag.Nodes() - visiting);
      }
      visiting := visiting + {node};
      ok := VisitDependencies(node, old(visiting));
      if ok {
        assert node !in visited;
        RankOneMore(dag, rank, height, node);
        rank, height := rank[node := height], height + 1;
        visiting, visited := visiting - {node}, visited + {node};
        assert visiting == old(visiting);
        assert visiting !! visited;
      }
    }

    method VisitDependencies(node: nat, ghost path: set<nat>) returns (ok: bool)
      requires Valid() && node in dag.Nodes() && node !in path && visiting == path + {node}
      requires LowerThan(dag, node, path)
      modifies this
      ensures ok ==> Valid() && visiting == old(visiting) && old(visited) <= visited
      ensures ok ==> dag.deps[node] <= visited
      ensures !ok ==> !Acyclic(dag)
      decreases |dag.Nodes() - visiting|, 2
    {
      var remaining := dag.deps[node];
      while remaining != {}
        invariant Valid() && visiting == old(visiting) && old(visited) <= visited
        invariant remaining <= dag.deps[node] <= remaining + visited
        decreases remaining
      {
        var dependency :| dependency in remaining;
        remaining := remaining - {dependency};
        LowerStill(dag, node, path, dependency);
        var fine := Visit(dependency);
        if !fine {
          return false;
        }
      }
      ok := true;
    }
  }

  lemma LowerStill(dag: Dag, node: nat, path: set<nat>, dependency: nat)
    requires dag.Closed() && node in dag.Nodes() && dependency in dag.deps[node]
    requires LowerThan(dag, node, path)
    ensures dependency in dag.Nodes()
    ensures LowerThan(dag, dependency, path + {node})
  {
    assert DependsOn(dag, node, dependency);
  }

  lemma RankOneMore(dag: Dag, rank: map<nat, nat>, height: nat, node: nat)
    requires PartialRank(dag, rank, height)
    requires node in dag.Nodes() && node !in rank && dag.deps[node] <= rank.Keys
    ensures PartialRank(dag, rank[node := height], height + 1)
    ensures rank[node := height].Keys == rank.Keys + {node}
  {
  }

  lemma AllVisited(dag: Dag, rank: map<nat, nat>, height: nat)
    requires dag.Closed() && PartialRank(dag, rank, height)
    requires dag.Nodes() <= rank.Keys
    ensures Acyclic(dag)
  {
    assert rank.Keys == dag.Nodes();
    assert Ranks(dag, rank);
  }

  /** The validator: closed dependencies, then a visit of every node. */
  method ValidDag(dag: Dag) returns (ok: bool)
    ensures ok <==> Acyclic(dag)
  {
    if !dag.Closed() {
      return false;
    }
    var check := new CycleCheck(dag);
    var node := 0;
    while node < |dag.deps|
      invariant 0 <= node <= |dag.deps|
      invariant check.dag == dag && check.Valid() && check.visiting == {}
      invariant Below(node) <= check.visited
    {
      var fine := check.Visit(node);
      if !fine {
        return false;
      }
      assert Below(node + 1) == Below(node) + {node};
      node := node + 1;
    }
    AllVisited(dag, check.rank, check.height);
    return true;
  }

  // ---------------------------------------------------------------------------------
  // ordered_nodes: whole layers of ready nodes at a time
  // ---------------------------------------------------------------------------------

  /** The elements of a set in increasing order. */
  function Ascending(s: set<nat>): (order: seq<nat>)
    ensures forall x: nat :: x in order <==> x in s
    ensures forall i, j | 0 <= i < j < |order| :: order[i] < order[j]
    decreases |s|
  {
    if s == {} then
      []
    else
      var least, rest := Least(s), Ascending(s - {Least(s)});
      assert forall x: nat :: x in [least] + rest <==> x == least || x in rest;
      assert forall i | 0 <= i < |rest| :: rest[i] in rest;
      [least] + rest
  }

  function Layers(dag: Dag, done: set<nat>): seq<nat>
    decreases |dag.Nodes() - done|
  {
    var ready := Ready(dag, done);
    if ready == {} then
      []
    else
      assert Least(ready) in dag.Nodes() - done;
      SubsetSize(dag.Nodes() - (done + ready), dag.Nodes() - done);
      Ascending(ready) + Layers(dag, done + ready)
  }

  lemma {:induction false} LayersComplete(dag: Dag, done: set<nat>)
    requires Acyclic(dag)
    ensures Completes(dag, done, Layers(dag, done))
    decreases |dag.Nodes() - done|
  {
    var ready := Ready(dag, done);
    if dag.Nodes() <= done {
      assert ready == {};
    } else {
      SomeNodeReady(dag, done);
      assert Least(ready) in dag.Nodes() - done;
      SubsetSize(dag.Nodes() - (done + ready), dag.Nodes() - done);
      LayersComplete(dag, done + ready);
      JoinLayers(dag, done, ready, Ascending(ready), Layers(dag, done + ready));
    }
  }

  lemma JoinLayers(dag: Dag, done: set<nat>, ready: set<nat>, layer: seq<nat>, rest: seq<nat>)
    requires ready == Ready(dag, done) && Distinct(layer)
    requires forall x: nat :: x in layer <==> x in ready
    requires Completes(dag, done + ready, rest)
    ensures Completes(dag, done, layer + rest)
  {
    var order := layer + rest;
    forall x: nat ensures x in order <==> x < |dag.deps| && x !in done {
      assert x in order <==> x in layer || x in rest;
    }
    forall i, j | 0 <= i < j < |order| ensures order[i] != order[j] {
      if i < |layer| <= j {
        assert order[i] in layer && order[j] in rest;
      }
    }
    forall i, d | 0 <= i < |order| && order[i] < |dag.deps| && d in dag.deps[order[i]]
      ensures d in done || Before(order, i, d)
    {
      if i < |layer| {
        assert order[i] in layer;
      } else if d in ready && d !in done {
        assert d in layer;
        var k :| 0 <= k < |layer| && layer[k] == d;
        assert order[k] == d;
      } else if d !in done {
        var k :| 0 <= k < i - |layer| && rest[k] == d;
        assert order[|layer| + k] == d;
      }
    }
  }

  /** One round: the ready nodes leave `remaining`, in increasing order. */
  method TakeLayer(dag: Dag, completed: set<nat>, remaining: set<nat>) returns (layer: seq<nat>, done: set<nat>, left: set<nat>)
    requires Acyclic(dag) && remaining == dag.Nodes() - completed && remaining != {}
    ensures left == dag.Nodes() - done && |left| < |remaining|
    ensures Layers(dag, completed) == layer + Layers(dag, done)
  {
    var ready := Ready(dag, completed);
    SomeNodeReady(dag, completed);
    assert Least(ready) in remaining;
    SubsetSize(remaining - ready, remaining);
    layer, done, left := Ascending(ready), completed + ready, remaining - ready;
  }

  /** `ordered_nodes`: repeatedly append all ready nodes; never meets the "cycle" error. */
  method OrderedNodes(dag: Dag) returns (ordered: seq<nat>)
    requires Acyclic(dag)
    ensures ordered == Layers(dag, {})
  {
    ordered := [];
    var remaining, completed := dag.Nodes(), {};
    while remaining != {}
      invariant remaining == dag.Nodes() - completed
      invariant Layers(dag, {}) == ordered + Layers(dag, completed)
      decreases |remaining|
    {
      var layer;
      layer, completed, remaining := TakeLayer(dag, completed, remaining);
      Regroup(ordered, layer, Layers(dag, completed));
      ordered := ordered + layer;
    }
    NoLayersLeft(dag, completed);
    Regroup(ordered, [], []);
  }

  lemma Regroup(a: seq<nat>, b: seq<nat>, c: seq<nat>)
    ensures a + (b + c) == (a + b) + c && a + [] == a
  {
  }

  lemma NoLayersLeft(dag: Dag, completed: set<nat>)
    requires dag.Nodes() <= completed
    ensures Layers(dag, completed) == []
  {
    assert Ready(dag, completed) <= dag.Nodes() - completed;
  }

  /** A node's level is the length of the longest chain of dependencies below it. */
  ghost predicate IsLevel(dag: Dag, level: map<nat, nat>) {
    && Ranks(dag, level)
    && forall x | x in level && level[x] > 0 :: HangsOn(dag, level, x, level[x] - 1)
  }

  /** The node depends on one of this level. */
  ghost predicate HangsOn(dag: Dag, level: map<nat, nat>, x: nat, k: nat) {
    exists d :: d in level && level[d] == k && DependsOn(dag, x, d)
  }

  ghost predicate Lower(level: map<nat, nat>, k: nat, done: set<nat>) {
    forall x: nat :: x in done <==> x in level && level[x] < k
  }

  lemma ReadyIsOneLevel(dag: Dag, level: map<nat, nat>, k: nat, done: set<nat>)
    requires dag.Closed() && IsLevel(dag, level) && Lower(level, k, done)
    ensures forall x: nat :: x in Ready(dag, done) <==> x in level && level[x] == k
  {
    forall x: nat ensures x in Ready(dag, done) <==> x in level && level[x] == k {
      if x in level && level[x] == k {
        forall d | d in dag.deps[x] ensures d in done {
          assert DependsOn(dag, x, d);
        }
      }
      if x in level && level[x] > k {
        assert HangsOn(dag, level, x, level[x] - 1);
        var d :| d in level && level[d] == level[x] - 1 && DependsOn(dag, x, d);
        assert d in dag.deps[x] && d !in done;
      }
    }
  }

  /** Listed before: of a lower level, or of the same level with a smaller ID. */
  ghost predicate ByLevel(order: seq<nat>, level: map<nat, nat>) {
    && (forall i | 0 <= i < |order| :: order[i] in level)
    && forall i, j | 0 <= i < j < |order| ::
         level[order[i]] < level[order[j]] || (level[order[i]] == level[order[j]] && order[i] < order[j])
  }

  lemma JoinLevels(first: seq<nat>, rest: seq<nat>, level: map<nat, nat>, k: nat)
    requires forall i | 0 <= i < |first| :: first[i] in level && level[first[i]] == k
    requires forall i, j | 0 <= i < j < |first| :: first[i] < first[j]
    requires ByLevel(rest, level) && forall i | 0 <= i < |rest| :: level[rest[i]] > k
    ensures ByLevel(first + rest, level) && forall i | 0 <= i < |first + rest| :: level[(first + rest)[i]] >= k
  {
  }

  /** `ordered_nodes` lists the nodes by level and then by ID. */
  lemma {:induction false} LayersByLevel(dag: Dag, level: map<nat, nat>, k: nat, done: set<nat>)
    requires dag.Closed() && IsLevel(dag, level) && Lower(level, k, done)
    ensures ByLevel(Layers(dag, done), level)
    ensures forall i | 0 <= i < |Layers(dag, done)| :: level[Layers(dag, done)[i]] >= k
    decreases |dag.Nodes() - done|
  {
    var ready := Ready(dag, done);
    if ready != {} {
      assert Least(ready) in dag.Nodes() - done;
      SubsetSize(dag.Nodes() - (done + ready), dag.Nodes() - done);
      assert Lower(level, k + 1, done + ready) && forall x | x in ready :: x in level && level[x] == k by {
        ReadyIsOneLevel(dag, level, k, done);
      }
      LayersByLevel(dag, level, k + 1, done + ready);
      var first := Ascending(ready);
      forall i | 0 <= i < |first| ensures first[i] in ready {
        assert first[i] in first;
      }
      JoinLevels(first, Layers(dag, done + ready), level, k);
    }
  }

  /** The length of the longest chain below a node, computed along a ranking. */
  ghost function Height(dag: Dag, rank: map<nat, nat>, x: nat): nat
    requires dag.Closed() && Ranks(dag, rank) && x in rank
    decreases rank[x], 1, 0
  {
    assert forall d | d in dag.deps[x] :: DependsOn(dag, x, d);
    if dag.deps[x] == {} then 0 else 1 + Highest(dag, rank, dag.deps[x], rank[x])
  }

  ghost function Highest(dag: Dag, rank: map<nat, nat>, ds: set<nat>, bound: nat): nat
    requires dag.Closed() && Ranks(dag, rank) && ds != {} && forall d | d in ds :: d in rank && rank[d] < bound
    decreases bound, 0, |ds|
  {
    var d := Least(ds);
    var rest := ds - {d};
    if rest == {} then Height(dag, rank, d)
    else
      SubsetSize(rest, ds);
      var h := Highest(dag, rank, rest, bound);
      if h < Height(dag, rank, d) then Height(dag, rank, d) else h
  }

  lemma {:induction false} HighestIsOne(dag: Dag, rank: map<nat, nat>, ds: set<nat>, bound: nat)
    requires dag.Closed() && Ranks(dag, rank) && ds != {} && forall d | d in ds :: d in rank && rank[d] < bound
    ensures forall d | d in ds :: Height(dag, rank, d) <= Highest(dag, rank, ds, bound)
    ensures exists d :: d in ds && Height(dag, rank, d) == Highest(dag, rank, ds, bound)
    decreases |ds|
  {
    var d := Least(ds);
    var rest := ds - {d};
    assert ds == rest + {d};
    if rest != {} {
      SubsetSize(rest, ds);
      HighestIsOne(dag, rank, rest, bound);
    }
  }

  /** Every acyclic graph has its levels. */
  lemma LevelsExist(dag: Dag) returns (level: map<nat, nat>)
    requires Acyclic(dag)
    ensures IsLevel(dag, level)
  {
    var rank :| Ranks(dag, rank);
    level := map x | x in rank :: Height(dag, rank, x);
    forall x: nat, d: nat | DependsOn(dag, x, d) ensures x in level && d in level && level[d] < level[x] {
      assert forall e | e in dag.deps[x] :: DependsOn(dag, x, e);
      HighestIsOne(dag, rank, dag.deps[x], rank[x]);
    }
    forall x | x in level && level[x] > 0 ensures HangsOn(dag, level, x, level[x] - 1) {
      assert forall e | e in dag.deps[x] :: DependsOn(dag, x, e);
      HighestIsOne(dag, rank, dag.deps[x], rank[x]);
      var d :| d in dag.deps[x] && Height(dag, rank, d) == Highest(dag, rank, dag.deps[x], rank[x]);
      assert d in level && level[d] == level[x] - 1 && DependsOn(dag, x, d);
    }
  }

  /**
   The advertised layered order is the order in which the runner takes the nodes exactly if
   no node is listed before a smaller one that was already free to run.
   */
  lemma LayersAreTheRunnersOrderExactly(dag: Dag)
    requires Acyclic(dag)
    ensures Layers(dag, {}) == Schedule(dag, {}) <==> LeastFirst(dag, Layers(dag, {}))
  {
    LayersComplete(dag, {});
    RunnersOrderExactly(dag, Layers(dag, {}));
  }

  /** A write (node 1) waits for its approval (node 0); the other nodes wait for nothing. */
  function ApprovedWrite(n: nat): Dag {
    Dag(seq(n, i => if i == 1 then {0} else {}))
  }

  lemma ApprovedWriteIsAcyclic(n: nat)
    ensures Acyclic(ApprovedWrite(n))
  {
    assert ApprovedWrite(n).Closed();
    assert Ranks(ApprovedWrite(n), map i: nat | i in Below(n) :: i);
  }

  lemma ApprovedWriteStarts(n: nat)
    requires n >= 3
    ensures Ready(ApprovedWrite(n), {}) == Below(n) - {1} && Least(Below(n) - {1}) == 0
    ensures Ready(ApprovedWrite(n), {0}) == Below(n) - {0} && Least(Below(n) - {0}) == 1
  {
    assert Ready(ApprovedWrite(n), {}) == Below(n) - {1};
    assert Ready(ApprovedWrite(n), {0}) == Below(n) - {0};
    assert 0 in Below(n) - {1} && 1 in Below(n) - {0};
  }

  /** The layers put every other node before the write; the runner takes it right after its approval. */
  lemma LayersAreNotTheRunnersOrder(n: nat)
    requires n >= 3
    ensures Acyclic(ApprovedWrite(n))
    ensures Layers(ApprovedWrite(n), {}) != Schedule(ApprovedWrite(n), {})
  {
    var dag := ApprovedWrite(n);
    ApprovedWriteIsAcyclic(n);
    ApprovedWriteStarts(n);
    assert Schedule(dag, {}) == [0] + Schedule(dag, {0});
    assert Schedule(dag, {})[1] == 1;
    var layer := Ascending(Below(n) - {1});
    assert 0 in layer && 2 in layer && 1 !in layer;
    assert layer[1] in layer;
    assert Layers(dag, {})[1] == layer[1] != 1;
  }
}
