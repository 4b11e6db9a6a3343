/**
 Dependency graphs of signed playbooks, the validator's cycle check, and the order in
 which the durable runner takes nodes.

 A playbook lists its nodes with unique, sorted IDs (the manifest validator insists), so
 a node is represented by its position in that list: comparing positions is comparing IDs.
 */
module PlaybookDag {

  /** The positions 0, 1, ..., n - 1. */
  function Below(n: nat): (s: set<nat>)
    ensures forall i: nat :: i in s <==> i < n
    ensures |s| == n
  {
    if n == 0 then {} else Below(n - 1) + {n - 1}
  }

  /** `deps[i]` holds the positions of the nodes that node `i` depends on. */
  datatype Dag = Dag(deps: seq<set<nat>>) {
    function Nodes(): set<nat> {
      Below(|deps|)
    }

    /** No self-dependency and no dependency on an unknown node. */
    predicate Closed() {
      forall i | 0 <= i < |deps| :: i !in deps[i] && deps[i] <= Nodes()
    }
  }

  predicate DependsOn(dag: Dag, i: nat, d: nat) {
    i < |dag.deps| && d in dag.deps[i]
  }

  /** `rank` strictly increases from every dependency to its dependant. */
  ghost predicate Ranks(dag: Dag, rank: map<nat, nat>) {
    && rank.Keys == dag.Nodes()
    && forall i, d {:trigger DependsOn(dag, i, d)} | DependsOn(dag, i, d) ::
         d in rank && i in rank && rank[d] < rank[i]
  }

  ghost predicate Acyclic(dag: Dag) {
    dag.Closed() && exists rank :: Ranks(dag, rank)
  }

  /** Nodes not yet done whose dependencies are all done. */
  function Ready(dag: Dag, done: set<nat>): set<nat> {
    set i: nat | i < |dag.deps| && i !in done && dag.deps[i] <= done
  }

  lemma SomeLeast(s: set<nat>) returns (m: nat)
    requires s != {}
    ensures m in s && forall x | x in s :: m <= x
    decreases |s|
  {
    var x :| x in s;
    var rest := s - {x};
    assert s == rest + {x};
    if rest == {} {
      m := x;
    } else {
      var low := SomeLeast(rest);
      m := if low < x then low else x;
    }
  }

  lemma HasLeast(s: set<nat>)
    requires s != {}
    ensures exists m :: m in s && forall x | x in s :: m <= x
  {
    var m := SomeLeast(s);
  }

  function Least(s: set<nat>): (m: nat)
    requires s != {}
    ensures m in s && forall x | x in s :: m <= x
  {
    HasLeast(s);
    var m :| m in s && forall x | x in s :: m <= x;
    m
  }

  // ---------------------------------------------------------------------------------
  // The runner's order: always the least ready node
  // ---------------------------------------------------------------------------------

  /** The nodes the runner takes, one after the other, once those in `done` are completed. */
  function Schedule(dag: Dag, done: set<nat>): (order: seq<nat>)
    decreases |dag.Nodes() - done|
  {
    var ready := Ready(dag, done);
    if ready == {} then
      []
    else
      var next := Least(ready);
      assert dag.Nodes() - (done + {next}) < dag.Nodes() - done by {
        assert next in dag.Nodes() - done;
      }
      SubsetSize(dag.Nodes() - (done + {next}), dag.Nodes() - done);
      [next] + Schedule(dag, done + {next})
  }

  lemma SubsetSize<T>(a: set<T>, b: set<T>)
    requires a < b
    ensures |a| < |b|
  {
    var rest := b - a;
    assert b == a + rest;
    assert rest != {};
  }

  predicate Distinct(s: seq<nat>) {
    forall i, j | 0 <= i < j < |s| :: s[i] != s[j]
  }

  /** `d` stands before position `i`. */
  predicate Before(order: seq<nat>, i: nat, d: nat) {
    exists k :: 0 <= k < i && k < |order| && order[k] == d
  }

  /** `order` lists every node outside `done` once, each after all its dependencies. */
  ghost predicate Completes(dag: Dag, done: set<nat>, order: seq<nat>) {
    && Distinct(order)
    && (forall x: nat :: x in order <==> x < |dag.deps| && x !in done)
    && forall i, d | 0 <= i < |order| && order[i] < |dag.deps| && d in dag.deps[order[i]] ::
         d in done || Before(order, i, d)
  }

  /** A topological order of the whole graph. */
  ghost predicate Topological(dag: Dag, order: seq<nat>) {
    Completes(dag, {}, order)
  }

  predicate LexLe(a: seq<nat>, b: seq<nat>) {
    a == [] || (b != [] && (a[0] < b[0] || (a[0] == b[0] && LexLe(a[1..], b[1..]))))
  }

  lemma LowestRanked(rank: map<nat, nat>, open: set<nat>) returns (first: nat)
    requires open != {} && open <= rank.Keys
    ensures first in open && forall i | i in open :: rank[first] <= rank[i]
    decreases |open|
  {
    var x :| x in open;
    var rest := open - {x};
    assert open == rest + {x};
    if rest == {} {
      first := x;
    } else {
      var low := LowestRanked(rank, rest);
      first := if rank[low] < rank[x] then low else x;
    }
  }

  /** On an acyclic graph some node is always ready: the unfinished node of least rank. */
  lemma SomeNodeReady(dag: Dag, done: set<nat>)
    requires Acyclic(dag)
    requires !(dag.Nodes() <= done)
    ensures Ready(dag, done) != {}
  {
    var rank :| Ranks(dag, rank);
    var first := LowestRanked(rank, dag.Nodes() - done);
    forall d | d in dag.deps[first] ensures d in done {
      assert DependsOn(dag, first, d);
    }
    assert first in Ready(dag, done);
  }

  /** Extending a completion of `done + {next}` by `next` in front. */
  lemma PrependCompletes(dag: Dag, done: set<nat>, next: nat, rest: seq<nat>)
    requires next in Ready(dag, done)
    requires Completes(dag, done + {next}, rest)
    ensures Completes(dag, done, [next] + rest)
  {
    var order := [next] + rest;
    forall i, d | 0 <= i < |order| && order[i] < |dag.deps| && d in dag.deps[order[i]]
      ensures d in done || Before(order, i, d)
    {
      if i > 0 && d !in done {
        if d == next {
          assert order[0] == d;
        } else {
          var k :| 0 <= k < i - 1 && rest[k] == d;
          assert order[k + 1] == d;
        }
      }
    }
    forall x: nat ensures x in order <==> x < |dag.deps| && x !in done {
      assert x in order <==> x == next || x in rest;
    }
    assert next !in rest;
  }

  lemma {:induction false} ScheduleCompletes(dag: Dag, done: set<nat>)
    requires Acyclic(dag)
    ensures Completes(dag, done, Schedule(dag, done))
    decreases |dag.Nodes() - done|
  {
    if dag.Nodes() <= done {
      assert Ready(dag, done) == {};
    } else {
      SomeNodeReady(dag, done);
      var next := Least(Ready(dag, done));
      assert next in dag.Nodes() - done;
      SubsetSize(dag.Nodes() - (done + {next}), dag.Nodes() - done);
      ScheduleCompletes(dag, done + {next});
      PrependCompletes(dag, done, next, Schedule(dag, done + {next}));
    }
  }

  /** A completion starts with a ready node, and its tail completes the rest. */
  lemma TailCompletes(dag: Dag, done: set<nat>, order: seq<nat>)
    requires order != [] && Completes(dag, done, order)
    ensures order[0] in Ready(dag, done)
    ensures Completes(dag, done + {order[0]}, order[1..])
  {
    var head, rest := order[0], order[1..];
    assert head in order;
    assert order == [head] + rest;
    assert head in Ready(dag, done) by {
      forall d | d in dag.deps[head] ensures d in done {
        assert d in done || Before(order, 0, d);
      }
    }
    forall i, d | 0 <= i < |rest| && rest[i] < |dag.deps| && d in dag.deps[rest[i]]
      ensures d in done + {head} || Before(rest, i, d)
    {
      assert rest[i] == order[i + 1];
      if d !in done {
        var k :| 0 <= k < i + 1 && order[k] == d;
        if k > 0 {
          assert rest[k - 1] == d;
        }
      }
    }
    forall x: nat ensures x in rest <==> x < |dag.deps| && x !in done + {head} {
      assert x in order <==> x == head || x in rest;
      if x in rest {
        var k :| 0 <= k < |rest| && rest[k] == x;
        assert order[k + 1] == x && order[0] == head;
      }
    }
  }

  lemma {:induction false} ScheduleIsLeastCompletion(dag: Dag, done: set<nat>, order: seq<nat>)
    requires Acyclic(dag)
    requires Completes(dag, done, order)
    ensures LexLe(Schedule(dag, done), order)
    decreases |order|
  {
    if order == [] {
      assert Ready(dag, done) == {} by {
        forall x: nat ensures x !in Ready(dag, done) { assert x !in order; }
      }
    } else {
      TailCompletes(dag, done, order);
      if Least(Ready(dag, done)) == order[0] {
        ScheduleIsLeastCompletion(dag, done + {order[0]}, order[1..]);
      }
    }
  }

  /** The runner's order is a topological order, and the lexicographically least one. */
  lemma ScheduleIsLeastTopologicalOrder(dag: Dag)
    requires Acyclic(dag)
    ensures Topological(dag, Schedule(dag, {}))
    ensures forall order | Topological(dag, order) :: LexLe(Schedule(dag, {}), order)
  {
    ScheduleCompletes(dag, {});
    forall order | Topological(dag, order) ensures LexLe(Schedule(dag, {}), order) {
      ScheduleIsLeastCompletion(dag, {}, order);
    }
  }

  lemma {:induction false} DistinctLength(s: seq<nat>, n: nat)
    requires Distinct(s)
    requires forall x: nat :: x in s <==> x < n
    ensures |s| == n
  {
    assert Elements(s) == Below(n);
    DistinctSize(s);
  }

  function Elements(s: seq<nat>): set<nat> {
    set x | x in s
  }

  lemma {:induction false} DistinctSize(s: seq<nat>)
    requires Distinct(s)
    ensures |Elements(s)| == |s|
  {
    if |s| == 0 {
      assert Elements(s) == {};
    } else {
      var init, last := s[..|s| - 1], s[|s| - 1];
      DistinctSize(init);
      assert s == init + [last];
      assert Elements(s) == Elements(init) + {last};
      assert last !in Elements(init);
    }
  }

  lemma ScheduleLength(dag: Dag)
    requires Acyclic(dag)
    ensures |Schedule(dag, {})| == |dag.deps|
  {
    ScheduleCompletes(dag, {});
    DistinctLength(Schedule(dag, {}), |dag.deps|);
  }

  // ---------------------------------------------------------------------------------
  // Which orders are the runner's
  // ---------------------------------------------------------------------------------

  lemma ScheduleTail(dag: Dag, done: set<nat>)
    requires Schedule(dag, done) != []
    ensures Schedule(dag, done)[1..] == Schedule(dag, done + {Schedule(dag, done)[0]})
  {
  }

  lemma ElementsGrow(s: seq<nat>, k: nat)
    requires 0 < k <= |s|
    ensures Elements(s[..k]) == Elements(s[..k - 1]) + {s[k - 1]}
  {
    assert s[..k] == s[..k - 1] + [s[k - 1]];
  }

  /** What remains of the order once its first `k` nodes are done is the schedule from there. */
  lemma {:induction false} ScheduleSuffix(dag: Dag, order: seq<nat>, k: nat)
    requires order == Schedule(dag, {}) && k <= |order|
    ensures Schedule(dag, Elements(order[..k])) == order[k..]
  {
    if k == 0 {
      assert Elements(order[..0]) == {};
    } else {
      ScheduleSuffix(dag, order, k - 1);
      ScheduleTail(dag, Elements(order[..k - 1]));
      ElementsGrow(order, k);
      assert order[k - 1..][1..] == order[k..];
    }
  }

  /** The next node to take is number `k` of the order. */
  lemma NextInOrder(dag: Dag, order: seq<nat>, k: nat)
    requires order == Schedule(dag, {}) && k <= |order|
    ensures k < |order| ==>
      Ready(dag, Elements(order[..k])) != {} && Least(Ready(dag, Elements(order[..k]))) == order[k]
    ensures k == |order| ==> Ready(dag, Elements(order[..k])) == {}
  {
    ScheduleSuffix(dag, order, k);
  }

  /** Everything node `x` depends on stands before position `i`. */
  ghost predicate Open(dag: Dag, order: seq<nat>, i: nat, x: nat) {
    x < |dag.deps| && forall d | d in dag.deps[x] :: Before(order, i, d)
  }

  /** A node stands before every later one that could have taken its place only if it is smaller. */
  ghost predicate LeastFirst(dag: Dag, order: seq<nat>) {
    forall i, j | 0 <= i < j < |order| && Open(dag, order, i, order[j]) :: order[i] < order[j]
  }

  lemma OpenIsReady(dag: Dag, order: seq<nat>, i: nat, x: nat)
    requires i <= |order|
    ensures x in Ready(dag, Elements(order[..i])) <==> x !in order[..i] && Open(dag, order, i, x)
  {
    forall d: nat ensures d in Elements(order[..i]) <==> Before(order, i, d) {
      if Before(order, i, d) {
        var k :| 0 <= k < i && k < |order| && order[k] == d;
        assert order[..i][k] == d;
      }
    }
  }

  /** In a topological order the next node is ready. */
  lemma NextIsReady(dag: Dag, order: seq<nat>, i: nat)
    requires Topological(dag, order) && i < |order|
    ensures order[i] in Ready(dag, Elements(order[..i]))
  {
    assert order[i] in order;
    OpenIsReady(dag, order, i, order[i]);
  }

  lemma LeastIsNext(dag: Dag, order: seq<nat>, i: nat)
    requires Topological(dag, order) && LeastFirst(dag, order) && i < |order|
    ensures Ready(dag, Elements(order[..i])) != {} && Least(Ready(dag, Elements(order[..i]))) == order[i]
  {
    var ready := Ready(dag, Elements(order[..i]));
    NextIsReady(dag, order, i);
    forall x | x in ready ensures order[i] <= x {
      OpenIsReady(dag, order, i, x);
      assert x in order;
      assert order == order[..i] + order[i..];
      var j :| 0 <= j < |order[i..]| && order[i..][j] == x;
      assert order[i + j] == x;
    }
  }

  lemma {:induction false} FollowsLeast(dag: Dag, order: seq<nat>, i: nat)
    requires Topological(dag, order) && LeastFirst(dag, order) && i <= |order|
    ensures Schedule(dag, Elements(order[..i])) == order[i..]
    decreases |order| - i
  {
    if i == |order| {
      assert order[..i] == order;
      assert Ready(dag, Elements(order)) == {} by {
        forall x: nat ensures x !in Ready(dag, Elements(order)) { assert x in order <==> x < |dag.deps|; }
      }
    } else {
      LeastIsNext(dag, order, i);
      ElementsGrow(order, i + 1);
      FollowsLeast(dag, order, i + 1);
      assert order[i..] == [order[i]] + order[i + 1..];
    }
  }

  lemma ScheduleIsLeastFirst(dag: Dag, order: seq<nat>, i: nat, j: nat)
    requires Topological(dag, order) && order == Schedule(dag, {})
    requires i < j < |order| && Open(dag, order, i, order[j])
    ensures order[i] < order[j]
  {
    NextInOrder(dag, order, i);
    OpenIsReady(dag, order, i, order[j]);
    assert order[j] !in order[..i];
  }

  /** A topological order is the runner's exactly if nothing smaller could have come earlier. */
  lemma RunnersOrderExactly(dag: Dag, order: seq<nat>)
    requires Topological(dag, order)
    ensures order == Schedule(dag, {}) <==> LeastFirst(dag, order)
  {
    if LeastFirst(dag, order) {
      FollowsLeast(dag, order, 0);
      assert Elements(order[..0]) == {} && order[0..] == order;
    }
    if order == Schedule(dag, {}) {
      forall i, j | 0 <= i < j < |order| && Open(dag, order, i, order[j]) ensures order[i] < order[j] {
        ScheduleIsLeastFirst(dag, order, i, j);
      }
    }
  }
}
