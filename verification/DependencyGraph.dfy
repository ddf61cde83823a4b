/** Directed graphs stored as Go stores them, a map from a node to a list of nodes, with the
    two searches the controller runs on them: Kahn's algorithm and a breadth-first search. */
module DependencyGraph {
  import opened StringOrder

  type Graph = map<string, seq<string>>

  /** A read of a Go map: a missing key gives the empty list. */
  function Targets(g: Graph, n: string): seq<string> {
    if n in g then g[n] else []
  }

  predicate Edge(g: Graph, a: string, b: string) {
    b in Targets(g, a)
  }

  /** How often `b` is listed under `a`: parallel edges count separately. */
  ghost function EdgeCount(g: Graph, a: string, b: string): nat {
    multiset(Targets(g, a))[b]
  }

  lemma EdgeIsCounted(g: Graph, a: string, b: string)
    ensures Edge(g, a, b) <==> EdgeCount(g, a, b) > 0
  {
  }

  /** Appending `b` to the list under `a` adds one edge and changes no other count. */
  lemma AddEdge(g: Graph, a: string, b: string)
    ensures var r := g[a := Targets(g, a) + [b]];
            forall x, y :: EdgeCount(r, x, y) == EdgeCount(g, x, y) + if x == a && y == b then 1 else 0
  {
    var r := g[a := Targets(g, a) + [b]];
    assert forall x | x != a :: Targets(r, x) == Targets(g, x);
    assert Targets(r, a) == Targets(g, a) + [b];
  }

  ghost predicate Walk(g: Graph, w: seq<string>) {
    forall i | 0 <= i < |w| - 1 :: Edge(g, w[i], w[i + 1])
  }

  ghost predicate WalkBetween(g: Graph, w: seq<string>, a: string, b: string) {
    |w| >= 2 && w[0] == a && w[|w| - 1] == b && Walk(g, w)
  }

  /** `b` is reached from `a` by one or more edges. */
  ghost predicate Reaches(g: Graph, a: string, b: string) {
    exists w :: WalkBetween(g, w, a, b)
  }

  ghost predicate Acyclic(g: Graph) {
    forall a :: !Reaches(g, a, a)
  }

  /** Every node an edge leads to is itself a key. */
  ghost predicate Closed(g: Graph) {
    forall a, b | Edge(g, a, b) :: b in g
  }

  lemma EdgeReaches(g: Graph, a: string, b: string)
    requires Edge(g, a, b)
    ensures Reaches(g, a, b)
  {
    assert WalkBetween(g, [a, b], a, b);
  }

  lemma ReachesTransitive(g: Graph, a: string, b: string, c: string)
    requires Reaches(g, a, b) && Reaches(g, b, c)
    ensures Reaches(g, a, c)
  {
    var v :| WalkBetween(g, v, a, b);
    var w :| WalkBetween(g, w, b, c);
    var u := v + w[1..];
    forall i | 0 <= i < |u| - 1 ensures Edge(g, u[i], u[i + 1]) {
      if i >= |v| - 1 {
        assert u[i] == w[i - (|v| - 1)] && u[i + 1] == w[i + 1 - (|v| - 1)];
      }
    }
    assert WalkBetween(g, u, a, c);
  }

  /** The last edge of a walk: `c` is entered from a node that is `a` or is reached from `a`. */
  lemma LastEdge(g: Graph, a: string, c: string) returns (b: string)
    requires Reaches(g, a, c)
    ensures Edge(g, b, c) && (b == a || Reaches(g, a, b))
  {
    var w :| WalkBetween(g, w, a, c);
    b := w[|w| - 2];
    if |w| > 2 { assert WalkBetween(g, w[..|w| - 1], a, b); }
  }

  /** The first edge of a walk, with a shorter walk for the rest. */
  lemma FirstEdge(g: Graph, w: seq<string>, a: string, c: string)
    requires WalkBetween(g, w, a, c)
    ensures Edge(g, a, w[1])
    ensures |w| == 2 ==> w[1] == c
    ensures |w| > 2 ==> WalkBetween(g, w[1..], w[1], c)
  {
    assert Edge(g, w[0], w[1]);
    if |w| > 2 {
      forall i | 0 <= i < |w[1..]| - 1 ensures Edge(g, w[1..][i], w[1..][i + 1]) {
        assert Edge(g, w[i + 1], w[i + 2]);
      }
    }
  }

  // ---- Cycles by counting -------------------------------------------------------------------

  lemma {:induction false} DistinctCount<T>(s: seq<T>)
    requires NoDuplicates(s)
    ensures |Elements(s)| == |s|
  {
    if s == [] {
      NoElements(s);
    } else {
      DistinctCount(s[1..]);
      assert s == [s[0]] + s[1..];
      assert Elements(s) == Elements(s[1..]) + {s[0]};
      assert s[0] !in Elements(s[1..]);
    }
  }

  lemma {:induction false} SubsetCount<T>(a: set<T>, b: set<T>)
    requires a <= b
    ensures |a| <= |b|
    ensures |a| == |b| ==> a == b
  {
    assert b == a + (b - a);
    assert |b| == |a| + |b - a|;
  }

  /** `a` has a successor inside `s`. */
  ghost predicate Onward(g: Graph, s: set<string>, a: string) {
    exists b :: b in s && Edge(g, a, b)
  }

  ghost predicate Endless(g: Graph, s: set<string>) {
    forall a {:trigger Onward(g, s, a)} | a in s :: Onward(g, s, a)
  }

  /** A walk of any length can be drawn inside a set in which every node has a successor. */
  lemma {:induction false} WalkInside(g: Graph, s: set<string>, n: nat) returns (w: seq<string>)
    requires s != {} && Endless(g, s)
    ensures |w| == n + 1 && Walk(g, w) && Elements(w) <= s
  {
    if n == 0 {
      var a :| a in s;
      w := [a];
    } else {
      var v := WalkInside(g, s, n - 1);
      var last := v[|v| - 1];
      assert last in Elements(v);
      assert Onward(g, s, last);
      var b :| b in s && Edge(g, last, b);
      w := v + [b];
    }
  }

  /** A non-empty finite set in which every node has a successor holds a cycle. */
  lemma EndlessSetHasCycle(g: Graph, s: set<string>)
    requires s != {} && Endless(g, s)
    ensures !Acyclic(g)
  {
    var w := WalkInside(g, s, |s|);
    if NoDuplicates(w) {
      DistinctCount(w);
      SubsetCount(Elements(w), s);
      assert false;
    }
    var i, j :| 0 <= i < j < |w| && w[i] == w[j];
    var loop := w[i..j + 1];
    forall k | 0 <= k < |loop| - 1 ensures Edge(g, loop[k], loop[k + 1]) {
      assert Edge(g, w[i + k], w[i + k + 1]);
    }
    assert WalkBetween(g, loop, w[i], w[i]);
    assert Reaches(g, w[i], w[i]);
  }

  /** In an acyclic graph every non-empty finite set of nodes has a member none of whose targets
      is in the set: among the pending nodes of a workflow, one waits for no pending node. */
  lemma MinimalMember(g: Graph, s: set<string>) returns (m: string)
    requires Acyclic(g) && s != {}
    ensures m in s && forall b | Edge(g, m, b) :: b !in s
  {
    if Endless(g, s) {
      EndlessSetHasCycle(g, s);
      assert false;
    }
    m :| m in s && !Onward(g, s, m);
  }

  // ---- Kahn's algorithm ---------------------------------------------------------------------

  /** How many entries of `s` are not in `done`, with multiplicity. */
  ghost function Open(s: seq<string>, done: set<string>): nat {
    if s == [] then 0 else (if s[0] in done then 0 else 1) + Open(s[1..], done)
  }

  lemma {:induction false} OpenZero(s: seq<string>, done: set<string>)
    ensures Open(s, done) == 0 <==> Elements(s) <= done
  {
    if s != [] {
      OpenZero(s[1..], done);
      assert s == [s[0]] + s[1..];
      assert Elements(s) == {s[0]} + Elements(s[1..]);
    }
  }

  lemma {:induction false} OpenNone(s: seq<string>)
    ensures Open(s, {}) == |s|
  {
    if s != [] { OpenNone(s[1..]); }
  }

  lemma {:induction false} OpenClose(s: seq<string>, done: set<string>, x: string)
    requires x !in done
    ensures Open(s, done + {x}) == Open(s, done) - multiset(s)[x]
  {
    if s != [] {
      OpenClose(s[1..], done, x);
      assert s == [s[0]] + s[1..];
      assert multiset(s) == multiset{s[0]} + multiset(s[1..]);
    }
  }

  /** `order` lists nodes of `g`, each after everything it points to. */
  ghost predicate DependencyOrder(g: Graph, order: seq<string>) {
    && NoDuplicates(order)
    && Elements(order) <= g.Keys
    && forall i, b | 0 <= i < |order| && Edge(g, order[i], b) :: b in order[..i]
  }

  lemma {:induction false} OrderForbidsCycles(g: Graph, order: seq<string>)
    requires DependencyOrder(g, order) && Elements(order) == g.Keys
    ensures Acyclic(g) && Closed(g)
  {
    forall a, b | Edge(g, a, b) ensures b in g {
      assert a in Elements(order);
      var i :| 0 <= i < |order| && order[i] == a;
      assert b in order[..i];
      assert b in Elements(order);
    }
    forall a ensures !Reaches(g, a, a) {
      if Reaches(g, a, a) {
        var w :| WalkBetween(g, w, a, a);
        assert Edge(g, w[0], w[1]);
        assert a in Elements(order);
        var i :| 0 <= i < |order| && order[i] == a;
        WalkDescends(g, order, w, i);
      }
    }
  }

  /** The nodes of a closed acyclic graph can be listed so that each comes after what it points to. */
  lemma {:induction false} OrderExists(g: Graph, first: seq<string>) returns (order: seq<string>)
    requires Acyclic(g) && Closed(g) && DependencyOrder(g, first)
    ensures DependencyOrder(g, order) && Elements(order) == g.Keys
    decreases g.Keys - Elements(first)
  {
    var rest := g.Keys - Elements(first);
    if rest == {} {
      assert g.Keys <= Elements(first) + rest;
      return first;
    }
    var m := MinimalMember(g, rest);
    var more := first + [m];
    assert Elements(more) == Elements(first) + {m};
    forall i, b | 0 <= i < |more| && Edge(g, more[i], b) ensures b in more[..i] {
      if i < |first| {
        assert b in first[..i] && more[..i] == first[..i];
      } else {
        assert b in Elements(first) && more[..i] == first;
      }
    }
    order := OrderExists(g, more);
  }

  /** Along a walk the position in a dependency order falls, so it cannot come back. */
  lemma {:induction false} WalkDescends(g: Graph, order: seq<string>, w: seq<string>, i: nat)
    requires DependencyOrder(g, order)
    requires |w| >= 2 && Walk(g, w) && i < |order| && order[i] == w[0]
    ensures w[|w| - 1] in order[..i] && w[|w| - 1] != w[0]
    decreases |w|
  {
    assert Edge(g, w[0], w[1]);
    assert w[1] in order[..i];
    var j :| 0 <= j < i && order[j] == w[1];
    if |w| > 2 {
      FirstEdge(g, w, w[0], w[|w| - 1]);
      WalkDescends(g, order, w[1..], j);
    }
  }

  /** `outbound` is the transpose of the part of `g` given by `rows`, with multiplicity. */
  ghost predicate Transposed(g: Graph, rows: set<string>, outbound: Graph) {
    forall d, n :: EdgeCount(outbound, d, n) == if n in rows then EdgeCount(g, n, d) else 0
  }

  /** The first loops of `validateAcyclic`: in-degrees and outgoing edges, rows in any order. */
  method CountEdges(deps: Graph) returns (indegree: map<string, int>, outbound: Graph)
    ensures indegree.Keys == deps.Keys
    ensures forall n | n in deps :: indegree[n] == |deps[n]|
    ensures Transposed(deps, deps.Keys, outbound)
  {
    indegree := map n | n in deps :: 0;
    outbound := map[];
    var rest := deps.Keys;
    while rest != {}
      invariant rest <= deps.Keys && indegree.Keys == deps.Keys
      invariant forall n | n in deps :: indegree[n] == if n in rest then 0 else |deps[n]|
      invariant Transposed(deps, deps.Keys - rest, outbound)
      decreases rest
    {
      var node :| node in rest;
      indegree, outbound := CountRow(deps, node, rest, indegree, outbound);
      rest := rest - {node};
    }
    assert deps.Keys - rest == deps.Keys;
  }

  method CountRow(deps: Graph, node: string, ghost rest: set<string>, degrees: map<string, int>, edges: Graph)
    returns (indegree: map<string, int>, outbound: Graph)
    requires node in rest && rest <= deps.Keys && degrees.Keys == deps.Keys && degrees[node] == 0
    requires Transposed(deps, deps.Keys - rest, edges)
    ensures indegree == degrees[node := |deps[node]|]
    ensures Transposed(deps, deps.Keys - (rest - {node}), outbound)
  {
    indegree, outbound := degrees, edges;
    var row := deps[node];
    for j := 0 to |row|
      invariant indegree == degrees[node := j]
      invariant forall d, n :: EdgeCount(outbound, d, n) ==
                               if n == node then multiset(row[..j])[d] else EdgeCount(edges, d, n)
    {
      var dep := row[j];
      indegree := indegree[node := indegree[node] + 1];
      AddEdge(outbound, dep, node);
      outbound := outbound[dep := Targets(outbound, dep) + [node]];
      assert row[..j + 1] == row[..j] + [dep];
    }
    assert row[..|row|] == row;
  }

  /** The loop invariant of Kahn's algorithm: `order` is what has left the queue so far. */
  ghost predicate Kahn(g: Graph, outbound: Graph, indegree: map<string, int>, queue: seq<string>, order: seq<string>) {
    && Transposed(g, g.Keys, outbound)
    && indegree.Keys == g.Keys
    && DependencyOrder(g, order)
    && NoDuplicates(queue) && Elements(queue) <= g.Keys - Elements(order)
    && (forall n | n in g :: indegree[n] == Open(g[n], Elements(order)))
    && ReadyExactly(g, indegree, Elements(order) + Elements(queue))
  }

  /** `validateAcyclic`: it accepts a dependency map exactly when every dependency is a node and
      no node depends on itself through any number of edges. */
  method ValidateAcyclic(deps: Graph) returns (ok: bool)
    ensures ok <==> Closed(deps) && Acyclic(deps)
  {
    var indegree, outbound := CountEdges(deps);
    var queue := InitialQueue(deps, indegree);
    var visited := 0;
    ghost var order: seq<string> := [];
    assert Kahn(deps, outbound, indegree, queue, order) by { KahnStart(deps, outbound, indegree, queue); }
    while queue != []
      invariant Kahn(deps, outbound, indegree, queue, order)
      invariant visited == |order|
      decreases |deps.Keys| - |order|
    {
      OrderBound(deps, outbound, indegree, queue, order);
      var node := queue[0];
      indegree, queue := Release(deps, outbound, indegree, queue, order);
      visited := visited + 1;
      order := order + [node];
    }
    ok := visited == |deps.Keys|;
    KahnEnd(deps, outbound, indegree, order);
  }

  /** The nodes without dependencies, in whatever order the map is walked. */
  method InitialQueue(deps: Graph, indegree: map<string, int>) returns (queue: seq<string>)
    requires indegree.Keys == deps.Keys
    ensures NoDuplicates(queue) && Elements(queue) == set n | n in deps && indegree[n] == 0
  {
    queue := [];
    var rest := deps.Keys;
    while rest != {}
      invariant rest <= deps.Keys && NoDuplicates(queue)
      invariant Elements(queue) == set n | n in deps && n !in rest && indegree[n] == 0
      decreases rest
    {
      var node :| node in rest;
      if indegree[node] == 0 {
        assert node !in Elements(queue);
        assert Elements(queue + [node]) == Elements(queue) + {node};
        queue := queue + [node];
      }
      rest := rest - {node};
    }
  }

  lemma KahnStart(g: Graph, outbound: Graph, indegree: map<string, int>, queue: seq<string>)
    requires Transposed(g, g.Keys, outbound) && indegree.Keys == g.Keys
    requires forall n | n in g :: indegree[n] == |g[n]|
    requires NoDuplicates(queue) && Elements(queue) == set n | n in g && indegree[n] == 0
    ensures Kahn(g, outbound, indegree, queue, [])
  {
    NoElements<string>([]);
    forall n | n in g ensures indegree[n] == Open(g[n], {}) { OpenNone(g[n]); }
  }

  lemma OrderBound(g: Graph, outbound: Graph, indegree: map<string, int>, queue: seq<string>, order: seq<string>)
    requires Kahn(g, outbound, indegree, queue, order) && queue != []
    ensures |order| < |g.Keys|
  {
    assert queue[0] in Elements(queue);
    DistinctCount(order);
    SubsetCount(Elements(order) + {queue[0]}, g.Keys);
  }

  /** The nodes with no open dependency are exactly those that are done or queued. */
  ghost predicate ReadyExactly(g: Graph, indegree: map<string, int>, ready: set<string>)
    requires indegree.Keys == g.Keys
  {
    forall n | n in g :: indegree[n] == 0 <==> n in ready
  }

  /** One round of the main loop: the head of the queue leaves, its successors lose an edge. */
  method Release(deps: Graph, outbound: Graph, degrees: map<string, int>, pending: seq<string>,
                 ghost order: seq<string>)
    returns (indegree: map<string, int>, queue: seq<string>)
    requires Kahn(deps, outbound, degrees, pending, order) && pending != []
    ensures Kahn(deps, outbound, indegree, queue, order + [pending[0]])
  {
    var node := pending[0];
    assert pending == [node] + pending[1..];
    HeadIsOpen(deps, outbound, degrees, pending, order);
    indegree, queue := Decrement(deps, outbound, node, degrees, pending[1..], Elements(order) + {node});
    ReleaseKeeps(deps, outbound, degrees, pending, order, indegree, queue);
  }

  /** The loop over the successors of `node`. */
  method Decrement(deps: Graph, outbound: Graph, node: string, degrees: map<string, int>, pending: seq<string>,
                   ghost done: set<string>)
    returns (indegree: map<string, int>, queue: seq<string>)
    requires Elements(Targets(outbound, node)) <= deps.Keys == degrees.Keys
    requires NoDuplicates(pending) && Elements(pending) <= deps.Keys - done
    requires ReadyExactly(deps, degrees, done + Elements(pending))
    requires forall n | n in deps :: degrees[n] >= EdgeCount(outbound, node, n)
    ensures indegree.Keys == deps.Keys
    ensures forall n | n in deps :: indegree[n] == degrees[n] - EdgeCount(outbound, node, n)
    ensures NoDuplicates(queue) && Elements(queue) <= deps.Keys - done
    ensures ReadyExactly(deps, indegree, done + Elements(queue))
  {
    indegree, queue := degrees, pending;
    var row := Targets(outbound, node);
    for j := 0 to |row|
      invariant indegree.Keys == deps.Keys
      invariant forall n | n in deps :: indegree[n] == degrees[n] - multiset(row[..j])[n]
      invariant NoDuplicates(queue) && Elements(queue) <= deps.Keys - done
      invariant ReadyExactly(deps, indegree, done + Elements(queue))
    {
      var next := row[j];
      assert row[..j + 1] == row[..j] + [next];
      assert next in Elements(row);
      RowBound(row, j);
      assert degrees[next] >= multiset(row)[next];
      indegree := indegree[next := indegree[next] - 1];
      if indegree[next] == 0 {
        assert next !in Elements(queue);
        assert Elements(queue + [next]) == Elements(queue) + {next};
        queue := queue + [next];
      }
    }
    assert row[..|row|] == row;
  }

  lemma HeadIsOpen(g: Graph, outbound: Graph, degrees: map<string, int>, pending: seq<string>, order: seq<string>)
    requires Kahn(g, outbound, degrees, pending, order) && pending != []
    ensures pending[0] in g && pending[0] !in Elements(order)
    ensures Elements(Targets(outbound, pending[0])) <= g.Keys
    ensures NoDuplicates(pending[1..]) && Elements(pending[1..]) == Elements(pending) - {pending[0]}
    ensures Elements(order) + {pending[0]} + Elements(pending[1..]) == Elements(order) + Elements(pending)
    ensures forall n | n in g ::
              Open(g[n], Elements(order) + {pending[0]}) == degrees[n] - EdgeCount(outbound, pending[0], n)
  {
    var node := pending[0];
    assert node in Elements(pending);
    assert pending == [node] + pending[1..];
    assert node !in pending[1..];
    forall n | n in Elements(Targets(outbound, node)) ensures n in g { EdgeIsCounted(outbound, node, n); }
    forall n | n in g
      ensures Open(g[n], Elements(order) + {node}) == degrees[n] - EdgeCount(outbound, node, n)
    {
      OpenClose(g[n], Elements(order), node);
    }
  }

  lemma RowBound(row: seq<string>, j: nat)
    requires j < |row|
    ensures multiset(row)[row[j]] > multiset(row[..j])[row[j]]
  {
    assert row == row[..j] + row[j..];
    assert row[j..] == [row[j]] + row[j + 1..];
    assert multiset(row) == multiset(row[..j]) + multiset(row[j..]);
  }

  lemma ReleaseKeeps(g: Graph, outbound: Graph, degrees: map<string, int>, pending: seq<string>, order: seq<string>,
                     indegree: map<string, int>, queue: seq<string>)
    requires Kahn(g, outbound, degrees, pending, order) && pending != []
    requires indegree.Keys == g.Keys
    requires forall n | n in g :: indegree[n] == degrees[n] - EdgeCount(outbound, pending[0], n)
    requires NoDuplicates(queue) && Elements(queue) <= g.Keys - (Elements(order) + {pending[0]})
    requires ReadyExactly(g, indegree, Elements(order) + {pending[0]} + Elements(queue))
    ensures Kahn(g, outbound, indegree, queue, order + [pending[0]])
  {
    var node := pending[0];
    HeadIsOpen(g, outbound, degrees, pending, order);
    assert Elements(order + [node]) == Elements(order) + {node};
    assert node in Elements(pending);
    assert degrees[node] == 0;
    OpenZero(g[node], Elements(order));
    OrderExtends(g, order, node);
  }

  lemma OrderExtends(g: Graph, order: seq<string>, node: string)
    requires DependencyOrder(g, order) && node in g && node !in Elements(order)
    requires Elements(g[node]) <= Elements(order)
    ensures DependencyOrder(g, order + [node])
  {
    var done := order + [node];
    forall i, b | 0 <= i < |done| && Edge(g, done[i], b) ensures b in done[..i] {
      if i < |order| {
        assert done[..i] == order[..i];
      } else {
        assert b in Elements(g[node]);
        assert done[..i] == order;
      }
    }
  }

  /** With the queue empty: everything was visited, or the rest lies on or behind a cycle. */
  lemma KahnEnd(g: Graph, outbound: Graph, indegree: map<string, int>, order: seq<string>)
    requires Kahn(g, outbound, indegree, [], order)
    ensures |order| == |g.Keys| <==> Closed(g) && Acyclic(g)
  {
    DistinctCount(order);
    SubsetCount(Elements(order), g.Keys);
    if |order| == |g.Keys| {
      OrderForbidsCycles(g, order);
    } else if Closed(g) {
      var left := g.Keys - Elements(order);
      assert g.Keys == Elements(order) + left;
      assert |left| > 0;
      forall a | a in left ensures Onward(g, left, a) {
        assert indegree[a] != 0;
        OpenZero(g[a], Elements(order));
        var b :| b in Elements(g[a]) && b !in Elements(order);
        assert Edge(g, a, b);
      }
      EndlessSetHasCycle(g, left);
    }
  }

  // ---- Breadth-first search -----------------------------------------------------------------

  /** The nodes reached from one of `roots` by one or more edges. */
  ghost predicate ReachedFrom(g: Graph, roots: set<string>, n: string) {
    exists r :: r in roots && Reaches(g, r, n)
  }

  /** Every node some edge leads to: the search stays inside this finite set. */
  ghost function Heads(g: Graph): set<string> {
    set a, b | a in g && b in g[a] :: b
  }

  /** `descendantNodes`: terminates on every graph and returns, in ascending order, exactly the
      nodes reached from a root by one or more edges. */
  method DescendantNodes(reverse: Graph, roots: seq<string>) returns (out: seq<string>)
    ensures StrictlySorted(out)
    ensures forall n :: n in out <==> ReachedFrom(reverse, Elements(roots), n)
  {
    var seen: set<string> := {};
    var queue := roots;
    ghost var expanded: set<string> := {};
    while queue != []
      invariant seen <= Heads(reverse)
      invariant forall n | n in seen :: ReachedFrom(reverse, Elements(roots), n)
      invariant forall n | n in queue :: n in roots || n in seen
      invariant forall n | n in roots || n in seen :: n in queue || n in expanded
      invariant forall a, b | a in expanded && Edge(reverse, a, b) :: b in seen
      decreases Heads(reverse) - seen, |queue|
    {
      var node := queue[0];
      assert queue == [node] + queue[1..];
      ghost var before := seen;
      seen, queue := Expand(reverse, Elements(roots), node, seen, queue[1..]);
      expanded := expanded + {node};
      assert seen != before ==> Heads(reverse) - seen < Heads(reverse) - before;
    }
    out := SortedMembers(seen);
    forall n ensures n in out <==> ReachedFrom(reverse, Elements(roots), n) {
      assert n in out <==> n in Elements(out);
      if ReachedFrom(reverse, Elements(roots), n) {
        var r :| r in Elements(roots) && Reaches(reverse, r, n);
        var w :| WalkBetween(reverse, w, r, n);
        ClosedUnderWalks(reverse, expanded, seen, w);
      }
    }
  }

  /** The inner loop: the children of `node` not seen before join `seen` and the queue. */
  method Expand(reverse: Graph, ghost roots: set<string>, node: string, known: set<string>, pending: seq<string>)
    returns (seen: set<string>, queue: seq<string>)
    requires known <= Heads(reverse)
    requires forall n | n in known :: ReachedFrom(reverse, roots, n)
    requires node in roots || node in known
    ensures known <= seen <= Heads(reverse)
    ensures forall n | n in seen :: ReachedFrom(reverse, roots, n)
    ensures forall b | Edge(reverse, node, b) :: b in seen
    ensures forall n :: n in queue <==> n in pending || n in seen - known
    ensures seen == known ==> queue == pending
  {
    seen, queue := known, pending;
    var children := Targets(reverse, node);
    for j := 0 to |children|
      invariant known <= seen <= Heads(reverse)
      invariant forall n | n in seen :: ReachedFrom(reverse, roots, n)
      invariant forall b | b in children[..j] :: b in seen
      invariant forall n :: n in queue <==> n in pending || n in seen - known
      invariant seen == known ==> queue == pending
    {
      var child := children[j];
      assert children[..j + 1] == children[..j] + [child];
      if child !in seen {
        ReachedChild(reverse, roots, node, child);
        seen := seen + {child};
        queue := queue + [child];
      }
    }
    assert children[..|children|] == children;
  }

  lemma ReachedChild(g: Graph, roots: set<string>, node: string, child: string)
    requires Edge(g, node, child)
    requires node in roots || ReachedFrom(g, roots, node)
    ensures ReachedFrom(g, roots, child)
  {
    EdgeReaches(g, node, child);
    if node !in roots {
      var r :| r in roots && Reaches(g, r, node);
      ReachesTransitive(g, r, node, child);
    }
  }

  lemma {:induction false} ClosedUnderWalks(g: Graph, expanded: set<string>, seen: set<string>, w: seq<string>)
    requires forall a, b | a in expanded && Edge(g, a, b) :: b in seen
    requires seen <= expanded
    requires |w| >= 2 && Walk(g, w) && w[0] in expanded
    ensures w[|w| - 1] in seen
    decreases |w|
  {
    FirstEdge(g, w, w[0], w[|w| - 1]);
    if |w| > 2 { ClosedUnderWalks(g, expanded, seen, w[1..]); }
  }
}
