/** The call-graph gate: what a set of roots can reach, by which shortest path, and the verdict on test-only hooks. */
module CallGraph {
  type Node = string

  /** The functions each function branches to, in the order the checker looks at them. */
  type Graph = map<Node, seq<Node>>

  function Callees(g: Graph, n: Node): seq<Node> { if n in g then g[n] else [] }

  // ---- paths ----

  /** Consecutive nodes are caller and callee. */
  predicate IsPath(g: Graph, p: seq<Node>) {
    p != [] && forall i :: 0 <= i < |p| - 1 ==> p[i + 1] in Callees(g, p[i])
  }

  predicate IsRoot(g: Graph, roots: seq<Node>, n: Node) { n in roots && n in g }

  /** A path from a root that is in the graph to `n`. */
  predicate Leads(g: Graph, roots: seq<Node>, p: seq<Node>, n: Node) {
    IsPath(g, p) && IsRoot(g, roots, p[0]) && p[|p| - 1] == n
  }

  ghost predicate Reaches(g: Graph, roots: seq<Node>, n: Node) {
    exists p :: Leads(g, roots, p, n)
  }

  lemma LeadsOn(g: Graph, roots: seq<Node>, p: seq<Node>, n: Node, m: Node)
    requires Leads(g, roots, p, n) && m in Callees(g, n)
    ensures Leads(g, roots, p + [m], m)
  {
  }

  lemma LeadsFrom(g: Graph, roots: seq<Node>, n: Node)
    requires IsRoot(g, roots, n)
    ensures Leads(g, roots, [n], n)
  {
  }

  /** A set of nodes that holds every present root and everything its members call. */
  ghost predicate Closed(g: Graph, roots: seq<Node>, seen: set<Node>) {
    && (forall r :: IsRoot(g, roots, r) ==> r in seen)
    && (forall n, m :: n in seen && m in Callees(g, n) ==> m in seen)
  }

  lemma {:induction false} ClosedHoldsPath(g: Graph, roots: seq<Node>, seen: set<Node>, p: seq<Node>, n: Node)
    requires Closed(g, roots, seen) && Leads(g, roots, p, n)
    ensures n in seen
    decreases |p|
  {
    if |p| > 1 {
      var q := p[..|p| - 1];
      assert p[|p| - 1] in Callees(g, p[|p| - 2]);
      ClosedHoldsPath(g, roots, seen, q, q[|q| - 1]);
    }
  }

  // ---- reachable ----

  /** Everything a search can ever meet. */
  function Universe(g: Graph, roots: seq<Node>): set<Node> {
    (set n | n in roots) + (set k, i | k in g && 0 <= i < |g[k]| :: g[k][i])
  }

  lemma CalleeInUniverse(g: Graph, roots: seq<Node>, n: Node, m: Node)
    requires m in Callees(g, n)
    ensures m in Universe(g, roots)
  {
    var i :| 0 <= i < |g[n]| && g[n][i] == m;
  }

  /** The search has met `seen`, looked at the callees of all of them but those in `queue`, and of `queue[0]` none. */
  ghost predicate Searching(g: Graph, roots: seq<Node>, seen: set<Node>, done: seq<Node>, queue: seq<Node>) {
    && seen <= Universe(g, roots)
    && (forall n :: n in seen <==> n in done || n in queue)
    && (forall n :: n in seen ==> Reaches(g, roots, n))
    && (forall r :: IsRoot(g, roots, r) ==> r in seen)
    && (forall n, m :: n in done && m in Callees(g, n) ==> m in seen)
  }

  /** The present roots, in order, and the missing ones. */
  method Enter(g: Graph, roots: seq<Node>) returns (seen: set<Node>, queue: seq<Node>, missing: seq<Node>)
    ensures Searching(g, roots, seen, [], queue)
    ensures forall r :: r in missing <==> r in roots && r !in g
  {
    seen, queue, missing := {}, [], [];
    for i := 0 to |roots|
      invariant forall n :: n in seen <==> n in roots[..i] && n in g
      invariant forall n :: n in queue <==> n in seen
      invariant forall r :: r in missing <==> r in roots[..i] && r !in g
    {
      var r := roots[i];
      assert roots[..i + 1] == roots[..i] + [r];
      if r in g {
        seen := seen + {r};
        queue := queue + [r];
      } else {
        missing := missing + [r];
      }
    }
    assert roots[..|roots|] == roots;
    forall n | n in seen
      ensures Reaches(g, roots, n)
    {
      LeadsFrom(g, roots, n);
    }
  }

  /** The callees of a node that have not been met join the queue. */
  method Visit(g: Graph, roots: seq<Node>, node: Node, seen0: set<Node>, queue0: seq<Node>)
    returns (seen: set<Node>, queue: seq<Node>)
    requires seen0 <= Universe(g, roots) && node in seen0 && Reaches(g, roots, node)
    requires forall n :: n in seen0 ==> Reaches(g, roots, n)
    ensures seen0 <= seen <= Universe(g, roots) && queue0 <= queue
    ensures forall n :: n in seen ==> Reaches(g, roots, n)
    ensures forall n :: n in seen <==> n in seen0 || n in Callees(g, node)
    ensures forall n :: n in queue <==> n in queue0 || n in seen - seen0
    ensures seen == seen0 ==> queue == queue0
  {
    seen, queue := seen0, queue0;
    var next := Callees(g, node);
    ghost var p :| Leads(g, roots, p, node);
    for i := 0 to |next|
      invariant seen0 <= seen <= Universe(g, roots) && queue0 <= queue
      invariant forall n :: n in seen ==> Reaches(g, roots, n)
      invariant forall n :: n in seen <==> n in seen0 || n in next[..i]
      invariant forall n :: n in queue <==> n in queue0 || n in seen - seen0
      invariant seen == seen0 ==> queue == queue0
    {
      assert next[..i + 1] == next[..i] + [next[i]];
      if next[i] !in seen {
        CalleeInUniverse(g, roots, node, next[i]);
        LeadsOn(g, roots, p, node, next[i]);
        seen := seen + {next[i]};
        queue := queue + [next[i]];
      }
    }
    assert next[..|next|] == next;
  }

  lemma Visited(g: Graph, roots: seq<Node>, seen0: set<Node>, done: seq<Node>, node: Node, rest: seq<Node>,
                seen: set<Node>, queue: seq<Node>)
    requires Searching(g, roots, seen0, done, [node] + rest) && seen0 <= seen <= Universe(g, roots)
    requires forall n :: n in seen ==> Reaches(g, roots, n)
    requires forall n :: n in seen <==> n in seen0 || n in Callees(g, node)
    requires forall n :: n in queue <==> n in rest || n in seen - seen0
    ensures Searching(g, roots, seen, done + [node], queue)
  {
  }

  /** Meeting another node leaves fewer to meet. */
  lemma FewerLeft(universe: set<Node>, seen0: set<Node>, seen: set<Node>)
    requires seen0 <= seen <= universe && seen != seen0
    ensures universe - seen < universe - seen0
  {
  }

  lemma SearchedAll(g: Graph, roots: seq<Node>, seen: set<Node>, done: seq<Node>)
    requires Searching(g, roots, seen, done, [])
    ensures forall n :: n in seen <==> Reaches(g, roots, n)
    ensures forall n :: n in done <==> n in seen
  {
    forall n | Reaches(g, roots, n)
      ensures n in seen
    {
      var p :| Leads(g, roots, p, n);
      ClosedHoldsPath(g, roots, seen, p, n);
    }
  }

  /** reachable: exactly the nodes with a path from a root that is in the graph, and the roots that are not. */
  method Reachable(g: Graph, roots: seq<Node>) returns (seen: set<Node>, order: seq<Node>, missing: seq<Node>)
    ensures forall n :: n in seen <==> Reaches(g, roots, n)
    ensures forall n :: n in order <==> n in seen
    ensures forall r :: r in missing <==> r in roots && r !in g
  {
    var queue;
    seen, queue, missing := Enter(g, roots);
    order := [];
    while queue != []
      invariant Searching(g, roots, seen, order, queue)
      decreases Universe(g, roots) - seen, |queue|
    {
      var node, rest := queue[0], queue[1..];
      ghost var seen0 := seen;
      assert queue == [node] + rest && node in queue;
      seen, queue := Visit(g, roots, node, seen, rest);
      Visited(g, roots, seen0, order, node, rest, seen, queue);
      order := order + [node];
      if seen != seen0 {
        FewerLeft(Universe(g, roots), seen0, seen);
      }
    }
    SearchedAll(g, roots, seen, order);
  }

  // ---- shortest_path ----

  /** Distances and predecessors of the nodes met so far. */
  type Distances = map<Node, nat>

  /** `prev` leads from every node at a distance to one that calls it, one step nearer to a root. */
  ghost predicate Backward(g: Graph, roots: seq<Node>, prev: map<Node, Node>, d: Distances) {
    && prev.Keys <= d.Keys
    && forall n {:trigger StepBack(g, roots, prev, d, n)} :: n in d ==> StepBack(g, roots, prev, d, n)
  }

  ghost predicate StepBack(g: Graph, roots: seq<Node>, prev: map<Node, Node>, d: Distances, n: Node)
    requires n in d
  {
    if n in prev then prev[n] in d && d[n] == d[prev[n]] + 1 && n in Callees(g, prev[n])
    else d[n] == 0 && IsRoot(g, roots, n)
  }

  /** The queue comes in order of distance. */
  ghost predicate Ascending(d: Distances, queue: seq<Node>) {
    (forall q :: q in queue ==> q in d) && forall i, j :: 0 <= i <= j < |queue| ==> d[queue[i]] <= d[queue[j]]
  }

  /** Nothing in the queue is further than one step from `k`, or nearer. */
  ghost predicate Within(d: Distances, queue: seq<Node>, k: nat) {
    forall q :: q in queue ==> q in d && k <= d[q] <= k + 1
  }

  /** Every node looked at has all its callees met, no more than a step further. */
  ghost predicate Settled(g: Graph, d: Distances, done: set<Node>) {
    done <= d.Keys && forall n :: n in done ==> CalleesNear(g, d, n)
  }

  ghost predicate CalleesNear(g: Graph, d: Distances, n: Node)
    requires n in d
  {
    forall m :: m in Callees(g, n) ==> m in d && d[m] <= d[n] + 1
  }

  ghost predicate RootsMet(g: Graph, roots: seq<Node>, d: Distances) {
    forall r :: IsRoot(g, roots, r) ==> r in d && d[r] == 0
  }

  ghost predicate NoFurther(d: Distances, done: set<Node>, k: nat) {
    forall n :: n in done && n in d ==> d[n] <= k
  }

  /** Of the nodes met, `done` have been looked at and the others wait in the queue, none of them nearer. */
  ghost predicate Advancing(g: Graph, roots: seq<Node>, d: Distances, done: set<Node>, queue: seq<Node>) {
    && Settled(g, d, done) && RootsMet(g, roots, d) && Ascending(d, queue)
    && (forall n :: n in d ==> n in done || n in queue)
    && (queue != [] ==> queue[0] in d && Within(d, queue, d[queue[0]]) && NoFurther(d, done, d[queue[0]]))
  }

  /** A path shorter than every distance in the queue runs through nodes already looked at. */
  lemma {:induction false} ShortPathIsDone(g: Graph, roots: seq<Node>, d: Distances, done: set<Node>, queue: seq<Node>,
                                           p: seq<Node>, n: Node)
    requires Advancing(g, roots, d, done, queue) && Leads(g, roots, p, n)
    requires forall q :: q in queue ==> |p| - 1 < d[q]
    ensures n in done && d[n] <= |p| - 1
    decreases |p|
  {
    if |p| > 1 {
      var q, m := p[..|p| - 1], p[|p| - 2];
      assert n in Callees(g, m);
      ShortPathIsDone(g, roots, d, done, queue, q, m);
      assert CalleesNear(g, d, m);
    }
  }

  /** No path is shorter than a node's distance when the node is at the head of the queue. */
  lemma HeadIsNearest(g: Graph, roots: seq<Node>, d: Distances, done: set<Node>, queue: seq<Node>, p: seq<Node>)
    requires Advancing(g, roots, d, done, queue) && queue != [] && Leads(g, roots, p, queue[0])
    ensures d[queue[0]] + 1 <= |p|
  {
    if |p| - 1 < d[queue[0]] {
      ShortPathIsDone(g, roots, d, done, queue, p, queue[0]);
    }
  }

  /** One step further back. */
  lemma PathBack(g: Graph, m: Node, path: seq<Node>)
    requires IsPath(g, path) && path[0] in Callees(g, m)
    ensures IsPath(g, [m] + path) && ([m] + path)[|path|] == path[|path| - 1]
  {
  }

  /** The path back from a node to a root, rebuilt from its end. */
  method Rebuild(g: Graph, roots: seq<Node>, prev: map<Node, Node>, ghost d: Distances, node: Node)
    returns (path: seq<Node>)
    requires Backward(g, roots, prev, d) && node in d
    ensures Leads(g, roots, path, node) && |path| == d[node] + 1
  {
    path := [node];
    while path[0] in prev
      invariant IsPath(g, path) && path[|path| - 1] == node && path[0] in d && d[path[0]] + |path| == d[node] + 1
      decreases d[path[0]]
    {
      assert StepBack(g, roots, prev, d, path[0]);
      PathBack(g, prev[path[0]], path);
      path := [prev[path[0]]] + path;
    }
    assert StepBack(g, roots, prev, d, path[0]);
  }

  /** The node at the head of the queue, at distance `k`, is being looked at. */
  ghost predicate Looking(g: Graph, roots: seq<Node>, prev: map<Node, Node>, d: Distances, done: set<Node>, node: Node,
                          queue: seq<Node>, k: nat) {
    && Backward(g, roots, prev, d) && d.Keys <= Universe(g, roots)
    && Settled(g, d, done) && RootsMet(g, roots, d) && Ascending(d, queue) && Within(d, queue, k)
    && NoFurther(d, done, k)
    && node in d && d[node] == k
    && (forall n :: n in d ==> n in done || n == node || n in queue)
  }

  /** Between two nodes: what the search keeps. */
  ghost predicate Nearing(g: Graph, roots: seq<Node>, prev: map<Node, Node>, d: Distances, done: set<Node>,
                          queue: seq<Node>) {
    Backward(g, roots, prev, d) && d.Keys <= Universe(g, roots) && Advancing(g, roots, d, done, queue)
  }

  lemma AscendingRest(d: Distances, node: Node, rest: seq<Node>)
    requires Ascending(d, [node] + rest)
    ensures Ascending(d, rest)
  {
    assert forall i :: 0 <= i < |rest| ==> rest[i] == ([node] + rest)[i + 1];
  }

  lemma StartLooking(g: Graph, roots: seq<Node>, prev: map<Node, Node>, d: Distances, done: set<Node>, node: Node,
                     rest: seq<Node>)
    requires Nearing(g, roots, prev, d, done, [node] + rest)
    ensures node in d && Looking(g, roots, prev, d, done, node, rest, d[node])
  {
    var queue := [node] + rest;
    assert queue[0] == node && forall q :: q in queue <==> q == node || q in rest;
    AscendingRest(d, node, rest);
  }

  /** Once all its callees are met, the node is settled. */
  lemma NowSettled(g: Graph, d: Distances, done: set<Node>, node: Node, queue: seq<Node>, k: nat)
    requires Settled(g, d, done) && Within(d, queue, k) && NoFurther(d, done, k) && node in d && d[node] == k
    requires forall n :: n in d ==> n in done || n == node || n in queue
    requires forall m :: m in Callees(g, node) ==> m in d
    ensures Settled(g, d, done + {node})
  {
    assert CalleesNear(g, d, node);
  }

  lemma StopLooking(g: Graph, roots: seq<Node>, prev: map<Node, Node>, d: Distances, done: set<Node>, node: Node,
                    queue: seq<Node>, k: nat)
    requires Looking(g, roots, prev, d, done, node, queue, k)
    requires forall m :: m in Callees(g, node) ==> m in d
    ensures Nearing(g, roots, prev, d, done + {node}, queue)
  {
    NowSettled(g, d, done, node, queue, k);
    if queue != [] {
      HeadIsLeast(d, queue, k);
      assert NoFurther(d, done + {node}, d[queue[0]]);
    }
  }

  lemma HeadIsLeast(d: Distances, queue: seq<Node>, k: nat)
    requires queue != [] && Ascending(d, queue) && Within(d, queue, k)
    ensures queue[0] in d && k <= d[queue[0]] && Within(d, queue, d[queue[0]])
  {
  }

  lemma BackwardNext(g: Graph, roots: seq<Node>, prev: map<Node, Node>, d: Distances, node: Node, m: Node)
    requires Backward(g, roots, prev, d) && node in d && m in Callees(g, node) && m !in d
    ensures Backward(g, roots, prev[m := node], d[m := d[node] + 1])
  {
    var prev2, d2 := prev[m := node], d[m := d[node] + 1];
    forall n | n in d2
      ensures StepBack(g, roots, prev2, d2, n)
    {
      if n != m {
        assert StepBack(g, roots, prev, d, n);
      }
    }
  }

  lemma SettledNext(g: Graph, d: Distances, done: set<Node>, m: Node, k: nat)
    requires Settled(g, d, done) && m !in d
    ensures Settled(g, d[m := k], done)
  {
  }

  lemma QueueNext(d: Distances, queue: seq<Node>, k: nat, m: Node)
    requires Ascending(d, queue) && Within(d, queue, k) && m !in d
    ensures Ascending(d[m := k + 1], queue + [m]) && Within(d[m := k + 1], queue + [m], k)
  {
  }

  lemma RootsNext(g: Graph, roots: seq<Node>, d: Distances, done: set<Node>, m: Node, k: nat)
    requires RootsMet(g, roots, d) && NoFurther(d, done, k) && done <= d.Keys && m !in d
    ensures RootsMet(g, roots, d[m := k + 1]) && NoFurther(d[m := k + 1], done, k)
  {
  }

  lemma CoverNext(d: Distances, done: set<Node>, node: Node, queue: seq<Node>, m: Node, k: nat)
    requires forall n :: n in d ==> n in done || n == node || n in queue
    ensures forall n :: n in d[m := k] ==> n in done || n == node || n in queue + [m]
  {
  }

  lemma KeysNext(g: Graph, roots: seq<Node>, d: Distances, node: Node, m: Node, k: nat)
    requires d.Keys <= Universe(g, roots) && m in Callees(g, node)
    ensures d[m := k].Keys <= Universe(g, roots)
  {
    CalleeInUniverse(g, roots, node, m);
    assert d[m := k].Keys == d.Keys + {m};
  }

  /** A callee met for the first time, one step further than the node that calls it. */
  lemma MeetNext(g: Graph, roots: seq<Node>, prev: map<Node, Node>, d: Distances, done: set<Node>, node: Node,
                 queue: seq<Node>, k: nat, m: Node)
    requires Looking(g, roots, prev, d, done, node, queue, k) && m in Callees(g, node) && m !in d
    ensures Looking(g, roots, prev[m := node], d[m := k + 1], done, node, queue + [m], k)
  {
    var d2 := d[m := k + 1];
    KeysNext(g, roots, d, node, m, k + 1);
    BackwardNext(g, roots, prev, d, node, m);
    SettledNext(g, d, done, m, k + 1);
    QueueNext(d, queue, k, m);
    RootsNext(g, roots, d, done, m, k);
    CoverNext(d, done, node, queue, m, k + 1);
    LookingNow(g, roots, prev[m := node], d2, done, node, queue + [m], k);
  }

  lemma LookingNow(g: Graph, roots: seq<Node>, prev: map<Node, Node>, d: Distances, done: set<Node>, node: Node,
                   queue: seq<Node>, k: nat)
    requires Backward(g, roots, prev, d) && d.Keys <= Universe(g, roots)
    requires Settled(g, d, done) && RootsMet(g, roots, d) && Ascending(d, queue) && Within(d, queue, k)
    requires NoFurther(d, done, k)
    requires node in d && d[node] == k
    requires forall n :: n in d ==> n in done || n == node || n in queue
    ensures Looking(g, roots, prev, d, done, node, queue, k)
  {
  }

  /** One callee. */
  method LookAtOne(g: Graph, roots: seq<Node>, node: Node, m: Node, seen0: set<Node>, prev0: map<Node, Node>,
                   queue0: seq<Node>,
                   ghost d0: Distances, ghost done: set<Node>, ghost k: nat)
    returns (seen: set<Node>, prev: map<Node, Node>, queue: seq<Node>, ghost d: Distances)
    requires Looking(g, roots, prev0, d0, done, node, queue0, k) && seen0 == d0.Keys && m in Callees(g, node)
    ensures Looking(g, roots, prev, d, done, node, queue, k) && seen == d.Keys && seen0 <= seen && m in seen
    ensures queue == queue0 || m !in seen0
  {
    seen, prev, queue, d := seen0, prev0, queue0, d0;
    if m !in seen {
      MeetNext(g, roots, prev, d, done, node, queue, k, m);
      seen := seen + {m};
      prev := prev[m := node];
      queue := queue + [m];
      d := d[m := k + 1];
    }
  }

  lemma AllMet(next: seq<Node>, seen: set<Node>)
    requires forall j :: 0 <= j < |next| ==> next[j] in seen
    ensures forall m :: m in next ==> m in seen
  {
  }

  method LookAt(g: Graph, roots: seq<Node>, node: Node, seen0: set<Node>, prev0: map<Node, Node>, queue0: seq<Node>,
                ghost d0: Distances, ghost done: set<Node>, ghost k: nat)
    returns (seen: set<Node>, prev: map<Node, Node>, queue: seq<Node>, ghost d: Distances)
    requires Looking(g, roots, prev0, d0, done, node, queue0, k) && seen0 == d0.Keys
    ensures Nearing(g, roots, prev, d, done + {node}, queue) && seen == d.Keys
    ensures seen0 <= seen && (seen == seen0 ==> queue == queue0)
  {
    seen, prev, queue, d := seen0, prev0, queue0, d0;
    var next := Callees(g, node);
    for i := 0 to |next|
      invariant Looking(g, roots, prev, d, done, node, queue, k) && seen == d.Keys
      invariant forall j :: 0 <= j < i ==> next[j] in seen
      invariant seen0 <= seen && (queue == queue0 || !(seen <= seen0))
    {
      assert next[i] in Callees(g, node);
      seen, prev, queue, d := LookAtOne(g, roots, node, next[i], seen, prev, queue, d, done, k);
    }
    AllMet(next, seen);
    StopLooking(g, roots, prev, d, done, node, queue, k);
  }

  method EnterRoots(g: Graph, roots: seq<Node>) returns (seen: set<Node>, queue: seq<Node>, ghost d: Distances)
    ensures Nearing(g, roots, map[], d, {}, queue) && seen == d.Keys
  {
    seen, queue, d := {}, [], map[];
    for i := 0 to |roots|
      invariant seen == d.Keys && forall n :: n in d <==> n in roots[..i] && n in g
      invariant forall n :: n in d ==> d[n] == 0
      invariant forall n :: n in queue <==> n in d
    {
      assert roots[..i + 1] == roots[..i] + [roots[i]];
      if roots[i] in g {
        seen := seen + {roots[i]};
        queue := queue + [roots[i]];
        d := d[roots[i] := 0];
      }
    }
    assert roots[..|roots|] == roots;
  }

  /**
   shortest_path: a path of calls from a root to the target, no longer than any other; the target alone if there is
   none.
   */
  method ShortestPath(g: Graph, roots: seq<Node>, target: Node) returns (path: seq<Node>)
    ensures Reaches(g, roots, target) ==> Leads(g, roots, path, target)
    ensures Reaches(g, roots, target) ==> forall p :: Leads(g, roots, p, target) ==> |path| <= |p|
    ensures !Reaches(g, roots, target) ==> path == [target]
  {
    var seen, queue;
    var prev: map<Node, Node> := map[];
    ghost var d;
    ghost var done: set<Node> := {};
    seen, queue, d := EnterRoots(g, roots);
    while queue != []
      invariant Nearing(g, roots, prev, d, done, queue) && seen == d.Keys && target !in done
      decreases Universe(g, roots) - seen, |queue|
    {
      var node, rest := queue[0], queue[1..];
      assert queue == [node] + rest;
      if node == target {
        path := Rebuild(g, roots, prev, d, node);
        forall p | Leads(g, roots, p, target)
          ensures |path| <= |p|
        {
          HeadIsNearest(g, roots, d, done, queue, p);
        }
        return;
      }
      StartLooking(g, roots, prev, d, done, node, rest);
      ghost var seen0 := seen;
      seen, prev, queue, d := LookAt(g, roots, node, seen, prev, rest, d, done, d[node]);
      done := done + {node};
      if seen != seen0 {
        FewerLeft(Universe(g, roots), seen0, seen);
      }
    }
    NotReached(g, roots, d, done, target);
    path := [target];
  }

  lemma NotReached(g: Graph, roots: seq<Node>, d: Distances, done: set<Node>, target: Node)
    requires Advancing(g, roots, d, done, []) && target !in done
    ensures !Reaches(g, roots, target)
  {
    if Reaches(g, roots, target) {
      var p :| Leads(g, roots, p, target);
      ClosedHoldsPath(g, roots, d.Keys, p, target);
    }
  }

  // ---- the gate on test-only hooks ----

  const DISPATCH_ROOTS: seq<Node> := ["dispatch"]

  const TEST_HOOKS: set<Node> := {"handle_test_skip_next_npu"}

  lemma EmptyIffNone(s: set<Node>)
    ensures s == {} <==> forall h :: h !in s
  {
  }

  /**
   check_test_hooks: a normal build passes if and only if the dispatcher is in the graph, no hook is among the symbols,
   and no path of calls from the dispatcher ends in one; a build that expects hooks, if and only if there is one of
   each.
   */
  method CheckTestHooks(symbols: set<Node>, g: Graph, expectHooks: bool) returns (ok: bool)
    ensures !expectHooks ==>
      (ok <==>
         && "dispatch" in g && TEST_HOOKS !! symbols
         && forall h :: h in TEST_HOOKS ==> !Reaches(g, DISPATCH_ROOTS, h))
    ensures expectHooks ==>
      (ok <==>
         && "dispatch" in g && !(TEST_HOOKS !! symbols)
         && exists h :: h in TEST_HOOKS && Reaches(g, DISPATCH_ROOTS, h))
  {
    var present := TEST_HOOKS * symbols;
    var seen, order, missing := Reachable(g, DISPATCH_ROOTS);
    if missing != [] {
      assert missing[0] in missing;
      return false;
    }
    assert "dispatch" in DISPATCH_ROOTS && "dispatch" !in missing;
    var reachableHooks := TEST_HOOKS * seen;
    assert forall h :: h in reachableHooks <==> h in TEST_HOOKS && Reaches(g, DISPATCH_ROOTS, h);
    EmptyIffNone(reachableHooks);
    if expectHooks {
      return present != {} && reachableHooks != {};
    }
    return present == {} && reachableHooks == {};
  }
}
