/** The board's dependency graph: the depth-first cycle check that guards every edit of it,
    proved to find a cycle exactly when there is one, and what acyclicity buys. */
module DependencyGraph {
  type Id = nat
  type Edges = set<(Id, Id)>

  ghost function ToSet(nodes: seq<Id>): set<Id> {
    set n | n in nodes
  }

  /** Consecutive elements of `p` are joined by edges. */
  ghost predicate IsPath(e: Edges, p: seq<Id>) {
    forall i, j | 0 <= i < j < |p| && j == i + 1 :: (p[i], p[j]) in e
  }

  ghost predicate IsCycle(e: Edges, p: seq<Id>) {
    |p| >= 2 && p[0] == p[|p| - 1] && IsPath(e, p)
  }

  ghost predicate Acyclic(e: Edges) {
    forall p :: !IsCycle(e, p)
  }

  /** A walk that starts in `nodes` and meets some node twice. */
  ghost predicate IsLasso(e: Edges, nodes: set<Id>, p: seq<Id>) {
    && p != [] && p[0] in nodes && IsPath(e, p)
    && exists i, j :: 0 <= i < j < |p| && p[i] == p[j]
  }

  /** `order` lists nodes so that every edge out of a listed node leads to an earlier one. */
  ghost predicate Sorted(e: Edges, order: seq<Id>) {
    forall i, m :: 0 <= i < |order| && (order[i], m) in e ==> m in order[..i]
  }

  lemma {:induction false} SortedWalkDescends(e: Edges, order: seq<Id>, p: seq<Id>, k: nat)
    requires Sorted(e, order) && IsPath(e, p) && 0 < |p| && k < |order| && p[0] == order[k]
    ensures |p| >= 2 ==> p[|p| - 1] in order[..k]
    ensures |p| <= k + 1
    decreases |p|
  {
    if |p| >= 2 {
      assert (p[0], p[1]) in e;
      assert p[1] in order[..k];
      var k' :| 0 <= k' < k && order[k'] == p[1];
      SlicePath(e, p, 1, |p|);
      SortedWalkDescends(e, order, p[1..], k');
      assert p[1..][|p| - 2] == p[|p| - 1];
    }
  }

  /** A sorted listing without repeats leaves no cycle through a listed node. */
  lemma SortedHasNoCycle(e: Edges, order: seq<Id>, p: seq<Id>)
    requires Sorted(e, order) && p != [] && p[0] in order
    ensures !IsCycle(e, p)
  {
    if IsCycle(e, p) {
      // Take the first occurrence of p[0]; the walk must end strictly before it.
      FirstOccurrence(order, p[0]);
      var k :| 0 <= k < |order| && order[k] == p[0] && p[0] !in order[..k];
      SortedWalkDescends(e, order, p, k);
      assert false;
    }
  }

  lemma {:induction false} FirstOccurrence(s: seq<Id>, x: Id)
    requires x in s
    ensures exists k :: 0 <= k < |s| && s[k] == x && x !in s[..k]
  {
    if x in s[..|s| - 1] {
      FirstOccurrence(s[..|s| - 1], x);
      var k :| 0 <= k < |s| - 1 && s[..|s| - 1][k] == x && x !in s[..|s| - 1][..k];
      assert s[..|s| - 1][..k] == s[..k];
    } else {
      assert s[|s| - 1] == x;
    }
  }

  ghost function Successors(graph: map<Id, set<Id>>, n: Id): set<Id> {
    if n in graph then graph[n] else {}
  }

  ghost function EdgesOf(graph: map<Id, set<Id>>): Edges {
    set n, m | n in graph && m in graph[n] :: (n, m)
  }

  /** `_has_cycle`: depth-first search with a visited set and the stack of open nodes. */
  class CycleSearch {
    const graph: map<Id, set<Id>>
    var visited: set<Id>
    var inStack: set<Id>
    ghost var finished: seq<Id>

    constructor (graph: map<Id, set<Id>>)
      ensures this.graph == graph && visited == {} && inStack == {} && finished == [] && Valid()
    {
      this.graph := graph;
      visited, inStack, finished := {}, {}, [];
    }

    ghost predicate Valid()
      reads this
    {
      && (forall n :: n in visited <==> n in inStack || n in finished)
      && (forall n :: n in finished ==> n !in inStack)
      && Sorted(EdgesOf(graph), finished)
    }

    /** Explores from `current`. A hit comes with a walk that closes on itself; otherwise
        `current` and everything below it is finished and the stack is as before. */
    method Dfs(current: Id, ghost stack: seq<Id>, ghost universe: set<Id>)
      returns (found: bool, ghost walk: seq<Id>)
      requires Valid() && visited <= universe && current in universe
      requires forall n, m :: (n, m) in EdgesOf(graph) ==> m in universe
      requires forall n :: n in inStack <==> n in stack
      requires IsPath(EdgesOf(graph), stack + [current])
      modifies this
      ensures found ==> IsPath(EdgesOf(graph), walk) && stack + [current] <= walk
                        && exists i, j :: 0 <= i < j < |walk| && walk[i] == walk[j]
      ensures !found ==> Valid() && inStack == old(inStack) && visited <= universe
                         && old(visited) <= visited && old(finished) <= finished && current in finished
      decreases universe - visited
    {
      walk := stack + [current];
      if current in inStack {
        assert walk[|stack|] == current;
        ghost var i :| 0 <= i < |stack| && stack[i] == current;
        assert walk[i] == walk[|stack|];
        return true, walk;
      }
      if current in visited {
        return false, walk;
      }
      ghost var open := inStack;
      visited := visited + {current};
      inStack := inStack + {current};
      var todo := if current in graph then graph[current] else {};
      ghost var here := stack + [current];
      while todo != {}
        invariant todo <= Successors(graph, current)
        invariant Valid() && inStack == open + {current} && visited <= universe && current in visited
        invariant old(visited) <= visited && old(finished) <= finished
        invariant forall m :: m in Successors(graph, current) ==> m in todo || m in finished
        decreases todo
      {
        var next :| next in todo;
        assert (current, next) in EdgesOf(graph);
        PathStep(EdgesOf(graph), here, next);
        ghost var before := finished;
        var hit, deeper := Dfs(next, here, universe);
        if hit {
          assert stack + [current] <= here + [next] <= deeper;
          return true, deeper;
        }
        todo := todo - {next};
      }
      ghost var done := finished;
      finished := finished + [current];
      inStack := inStack - {current};
      SortedExtends(EdgesOf(graph), done, current);
      found := false;
    }

    /** The search over all start nodes: the answer is exact. */
    method Run(nodes: seq<Id>) returns (found: bool)
      requires Valid() && visited == {} && inStack == {} && finished == []
      modifies this
      ensures found <==> exists p :: IsLasso(EdgesOf(graph), ToSet(nodes), p)
    {
      ghost var starts := ToSet(nodes);
      ghost var targets := set n, m | n in graph && m in graph[n] :: m;
      for k := 0 to |nodes|
        invariant Valid() && inStack == {} && visited <= starts + targets
        invariant forall i | 0 <= i < k :: nodes[i] in finished
      {
        var hit, walk := Dfs(nodes[k], [], starts + targets);
        if hit {
          assert [] + [nodes[k]] <= walk;
          assert IsLasso(EdgesOf(graph), starts, walk);
          return true;
        }
      }
      forall p ensures !IsLasso(EdgesOf(graph), starts, p) {
        NoLassoFrom(EdgesOf(graph), finished, starts, p);
      }
      found := false;
    }
  }

  lemma SlicePath(e: Edges, p: seq<Id>, lo: nat, hi: nat)
    requires IsPath(e, p) && lo <= hi <= |p|
    ensures IsPath(e, p[lo..hi])
  {
    var c := p[lo..hi];
    forall i, j | 0 <= i < j < |c| && j == i + 1 ensures (c[i], c[j]) in e {
      assert c[i] == p[lo + i] && c[j] == p[lo + j];
    }
  }

  lemma PathStep(e: Edges, p: seq<Id>, next: Id)
    requires IsPath(e, p) && p != [] && (p[|p| - 1], next) in e
    ensures IsPath(e, p + [next])
  {
  }

  lemma SortedExtends(e: Edges, order: seq<Id>, n: Id)
    requires Sorted(e, order) && forall m :: (n, m) in e ==> m in order
    ensures Sorted(e, order + [n])
  {
    forall i, m | 0 <= i < |order + [n]| && ((order + [n])[i], m) in e
      ensures m in (order + [n])[..i]
    {
      if i < |order| {
        assert (order + [n])[..i] == order[..i];
      } else {
        assert (order + [n])[..i] == order;
      }
    }
  }

  /** The part of a lasso between two visits of the same node is a cycle. */
  lemma LassoHoldsCycle(e: Edges, nodes: set<Id>, p: seq<Id>) returns (i: nat, c: seq<Id>)
    requires IsLasso(e, nodes, p)
    ensures i < |p| && IsCycle(e, c) && c[0] == p[i]
  {
    var lo, hi :| 0 <= lo < hi < |p| && p[lo] == p[hi];
    i, c := lo, p[lo..hi + 1];
    SlicePath(e, p, lo, hi + 1);
  }

  lemma NoLassoFrom(e: Edges, order: seq<Id>, starts: set<Id>, p: seq<Id>)
    requires Sorted(e, order) && forall n :: n in starts ==> n in order
    ensures !IsLasso(e, starts, p)
  {
    if IsLasso(e, starts, p) {
      var i, c := LassoHoldsCycle(e, starts, p);
      WalkStaysListed(e, order, p, i);
      SortedHasNoCycle(e, order, c);
    }
  }

  lemma {:induction false} WalkStaysListed(e: Edges, order: seq<Id>, p: seq<Id>, i: nat)
    requires Sorted(e, order) && IsPath(e, p) && i < |p| && p[0] in order
    ensures p[i] in order
  {
    if i > 0 {
      WalkStaysListed(e, order, p, i - 1);
      var k :| 0 <= k < |order| && order[k] == p[i - 1];
      assert (p[i - 1], p[i]) in e;
    }
  }

  /** On a graph whose edges all lead to start nodes, walks that close on themselves and
      cycles are the same thing; a board's graph is of this kind. */
  lemma LassoIffCycle(e: Edges, nodes: set<Id>)
    requires forall n, m :: (n, m) in e ==> m in nodes
    ensures (exists p :: IsLasso(e, nodes, p)) <==> !Acyclic(e)
  {
    if p :| IsLasso(e, nodes, p) {
      var _, c := LassoHoldsCycle(e, nodes, p);
    }
    if !Acyclic(e) {
      var c :| IsCycle(e, c);
      var n := |c|;
      assert (c[n - 2], c[n - 1]) in e;
      assert c[0] == c[n - 1];
      assert IsLasso(e, nodes, c);
    }
  }

  lemma FewerEdgesStayAcyclic(e: Edges, e': Edges)
    requires Acyclic(e) && e' <= e
    ensures Acyclic(e')
  {
    forall p ensures !IsCycle(e', p) {
      if IsCycle(e', p) {
        assert IsCycle(e, p);
      }
    }
  }

  /** In an acyclic graph every non-empty finite set has a node with no edge into the set:
      following edges inside the set for longer than its size would repeat a node. */
  lemma AcyclicHasSource(e: Edges, s: set<Id>) returns (n: Id)
    requires Acyclic(e) && s != {}
    ensures n in s && forall m :: m in s ==> (n, m) !in e
  {
    var start :| start in s;
    n := WalkToSource(e, s, [start]);
  }

  lemma {:induction false} WalkToSource(e: Edges, s: set<Id>, p: seq<Id>) returns (n: Id)
    requires Acyclic(e) && p != [] && IsPath(e, p) && forall k | 0 <= k < |p| :: p[k] in s
    ensures n in s && forall m :: m in s ==> (n, m) !in e
    decreases |s| + 1 - |p|
  {
    if |p| > |s| {
      PigeonHole(s, p);
      assert IsLasso(e, s, p);
      var _, c := LassoHoldsCycle(e, s, p);
      assert false;
    } else if m :| m in s && (p[|p| - 1], m) in e {
      PathStep(e, p, m);
      n := WalkToSource(e, s, p + [m]);
    } else {
      n := p[|p| - 1];
    }
  }

  lemma {:induction false} PigeonHole(s: set<Id>, p: seq<Id>)
    requires |p| > |s| && forall k | 0 <= k < |p| :: p[k] in s
    ensures exists i, j :: 0 <= i < j < |p| && p[i] == p[j]
  {
    var x := p[0];
    if k :| 0 < k < |p| && p[k] == x {
    } else {
      var q := p[1..];
      forall k | 0 <= k < |q| ensures q[k] in s - {x} {
        assert q[k] == p[k + 1];
      }
      PigeonHole(s - {x}, q);
      var i, j :| 0 <= i < j < |q| && q[i] == q[j];
      assert p[i + 1] == p[j + 1];
    }
  }
}
