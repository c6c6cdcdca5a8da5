/** The dependency graph every later stage walks: a task name maps to the
    names its function declares. The reserved callback name is never treated
    as a task by the graph code, so it is not a node even when some task
    happens to be registered under it. */
module Graph {
  import opened Common

  type Graph = map<string, seq<string>>

  /** A name the graph code visits: a key other than the callback name. */
  predicate IsNode(g: Graph, x: string)
  {
    x in g && x != Callback
  }

  /** Every dependency is the callback name or a key: what buildMap's
      unknown-name check establishes (index.js:50-54). */
  predicate Closed(g: Graph)
  {
    forall k, d :: k in g && d in g[k] ==> d == Callback || d in g
  }

  /** `a` depends on `b`, both being nodes. */
  predicate Step(g: Graph, a: string, b: string)
  {
    IsNode(g, a) && IsNode(g, b) && b in g[a]
  }

  /** A non-empty chain of nodes, each depending on the next. */
  ghost predicate IsPath(g: Graph, p: seq<string>)
  {
    && |p| > 0
    && (forall i :: 0 <= i < |p| ==> IsNode(g, p[i]))
    && (forall i :: 0 < i < |p| ==> Step(g, p[i - 1], p[i]))
  }

  /** No chain of dependencies visits a node twice. */
  ghost predicate Acyclic(g: Graph)
  {
    forall p :: IsPath(g, p) ==> Distinct(p)
  }

  /** `x` depends, directly or not, on itself. */
  ghost predicate OnCycle(g: Graph, x: string)
  {
    exists p :: IsPath(g, p) && |p| > 1 && p[0] == x && p[|p| - 1] == x
  }

  /** Some chain starting at one of `roots` ends at `x`. */
  ghost predicate Reaches(g: Graph, roots: seq<string>, x: string)
  {
    exists p :: IsPath(g, p) && p[0] in roots && p[|p| - 1] == x
  }

  /** The nodes reachable from `roots`, the roots themselves included. */
  ghost function ReachSet(g: Graph, roots: seq<string>): set<string>
  {
    set x | x in g && Reaches(g, roots, x)
  }

  // ---------------------------------------------------------------------
  // Paths
  // ---------------------------------------------------------------------

  lemma PathCons(g: Graph, a: string, p: seq<string>)
    requires IsPath(g, p) && Step(g, a, p[0])
    ensures IsPath(g, [a] + p)
  {
    var q := [a] + p;
    forall i | 0 < i < |q| ensures Step(g, q[i - 1], q[i]) {
      if i > 1 {
        assert q[i - 1] == p[i - 2] && q[i] == p[i - 1];
      }
    }
  }

  lemma PathSnoc(g: Graph, p: seq<string>, b: string)
    requires IsPath(g, p) && Step(g, p[|p| - 1], b)
    ensures IsPath(g, p + [b])
  {
  }

  lemma PathSlice(g: Graph, p: seq<string>, i: int, j: int)
    requires IsPath(g, p) && 0 <= i < j <= |p|
    ensures IsPath(g, p[i..j])
  {
    var q := p[i..j];
    forall k | 0 < k < |q| ensures Step(g, q[k - 1], q[k]) {
      assert q[k - 1] == p[i + k - 1] && q[k] == p[i + k];
    }
  }

  /** A path with a repeated node contains a cycle through that node. */
  lemma RepeatGivesCycle(g: Graph, p: seq<string>, i: int, j: int)
    requires IsPath(g, p) && 0 <= i < j < |p| && p[i] == p[j]
    ensures OnCycle(g, p[i])
  {
    PathSlice(g, p, i, j + 1);
    var q := p[i..j + 1];
    assert q[0] == p[i] && q[|q| - 1] == p[j];
  }

  /** Acyclicity is the absence of cycles. */
  lemma AcyclicIffNoCycle(g: Graph)
    ensures Acyclic(g) <==> forall x :: !OnCycle(g, x)
  {
    if Acyclic(g) {
      forall p | IsPath(g, p) && |p| > 1 ensures p[0] != p[|p| - 1] {
        assert Distinct(p);
      }
    }
    if forall x :: !OnCycle(g, x) {
      forall p | IsPath(g, p) ensures Distinct(p) {
        if !Distinct(p) {
          var i, j :| 0 <= i < j < |p| && p[i] == p[j];
          RepeatGivesCycle(g, p, i, j);
        }
      }
    }
  }

  // ---------------------------------------------------------------------
  // Subgraphs
  // ---------------------------------------------------------------------

  /** Every key of `h` is a key of `g`, with no dependency `g` lacks. */
  predicate SubGraph(h: Graph, g: Graph)
  {
    forall k :: k in h ==> k in g && forall d :: d in h[k] ==> d in g[k]
  }

  lemma SubGraphPath(h: Graph, g: Graph, p: seq<string>)
    requires SubGraph(h, g) && IsPath(h, p)
    ensures IsPath(g, p)
  {
    forall i | 0 < i < |p| ensures Step(g, p[i - 1], p[i]) {
      assert Step(h, p[i - 1], p[i]);
    }
  }

  lemma SubGraphAcyclic(h: Graph, g: Graph)
    requires SubGraph(h, g) && Acyclic(g)
    ensures Acyclic(h)
  {
    forall p | IsPath(h, p) ensures Distinct(p) {
      SubGraphPath(h, g, p);
    }
  }

  // ---------------------------------------------------------------------
  // Sinks: an acyclic graph with a node has a node with no node dependency
  // ---------------------------------------------------------------------

  /** A sequence of distinct elements of `s` is no longer than `s` is large. */
  lemma {:induction false} DistinctWithin<T>(p: seq<T>, s: set<T>)
    requires Distinct(p) && forall i :: 0 <= i < |p| ==> p[i] in s
    ensures |p| <= |s|
  {
    if |p| > 0 {
      var rest := p[1..];
      forall i | 0 <= i < |rest| ensures rest[i] in s - {p[0]} {
        assert rest[i] == p[i + 1];
      }
      DistinctWithin(rest, s - {p[0]});
    }
  }

  /** A node none of whose dependencies is a node. */
  predicate IsSink(g: Graph, k: string)
  {
    IsNode(g, k) && forall d :: d in g[k] ==> !IsNode(g, d)
  }

  lemma {:induction false} SinkAfter(g: Graph, p: seq<string>)
    requires Acyclic(g) && IsPath(g, p)
    ensures exists k :: IsSink(g, k)
    decreases |g.Keys| - |p|
  {
    assert Distinct(p);
    DistinctWithin(p, g.Keys);
    var last := p[|p| - 1];
    if !IsSink(g, last) {
      var d :| d in g[last] && IsNode(g, d);
      PathSnoc(g, p, d);
      assert Distinct(p + [d]);
      DistinctWithin(p + [d], g.Keys);
      SinkAfter(g, p + [d]);
    }
  }

  lemma Sink(g: Graph, x: string)
    requires Acyclic(g) && IsNode(g, x)
    ensures exists k :: IsSink(g, k)
  {
    assert IsPath(g, [x]);
    SinkAfter(g, [x]);
  }

  // ---------------------------------------------------------------------
  // Reachability
  // ---------------------------------------------------------------------

  lemma ReachAppend(g: Graph, a: seq<string>, b: seq<string>)
    ensures ReachSet(g, a + b) == ReachSet(g, a) + ReachSet(g, b)
  {
    forall x | x in ReachSet(g, a + b) ensures x in ReachSet(g, a) + ReachSet(g, b) {
      var p :| IsPath(g, p) && p[0] in a + b && p[|p| - 1] == x;
      if p[0] in a { assert Reaches(g, a, x); } else { assert Reaches(g, b, x); }
    }
    forall x | x in ReachSet(g, a) + ReachSet(g, b) ensures x in ReachSet(g, a + b) {
      if x in ReachSet(g, a) {
        var p :| IsPath(g, p) && p[0] in a && p[|p| - 1] == x;
        assert p[0] in a + b;
      } else {
        var p :| IsPath(g, p) && p[0] in b && p[|p| - 1] == x;
        assert p[0] in a + b;
      }
    }
  }

  lemma ReachEmpty(g: Graph)
    ensures ReachSet(g, []) == {}
  {
  }

  /** What one root contributes: nothing unless it is a node, else itself
      and what its dependencies reach. */
  lemma ReachOne(g: Graph, r: string)
    ensures !IsNode(g, r) ==> ReachSet(g, [r]) == {}
    ensures IsNode(g, r) ==> ReachSet(g, [r]) == {r} + ReachSet(g, g[r])
  {
    if IsNode(g, r) {
      assert IsPath(g, [r]);
      assert r in ReachSet(g, [r]);
      forall x | x in ReachSet(g, [r]) ensures x == r || x in ReachSet(g, g[r]) {
        var p :| IsPath(g, p) && p[0] in [r] && p[|p| - 1] == x;
        if |p| > 1 {
          PathSlice(g, p, 1, |p|);
          assert p[1..][0] == p[1];
          assert Step(g, p[0], p[1]);
        }
      }
      forall x | x in ReachSet(g, g[r]) ensures x in ReachSet(g, [r]) {
        var p :| IsPath(g, p) && p[0] in g[r] && p[|p| - 1] == x;
        PathCons(g, r, p);
        var q := [r] + p;
        assert q[0] in [r] && q[|q| - 1] == x;
      }
    }
  }

  /** Under acyclicity a node does not reach itself through its dependencies. */
  lemma ReachNotSelf(g: Graph, r: string)
    requires Acyclic(g) && IsNode(g, r)
    ensures r !in ReachSet(g, g[r])
  {
    forall p | IsPath(g, p) && p[0] in g[r] ensures p[|p| - 1] != r {
      PathCons(g, r, p);
      var q := [r] + p;
      assert Distinct(q);
      assert q[0] == r && q[|q| - 1] == p[|p| - 1];
    }
  }

  /** What the roots reach is closed under dependencies that are nodes. */
  lemma ReachStep(g: Graph, roots: seq<string>, k: string, d: string)
    requires k in ReachSet(g, roots) && Step(g, k, d)
    ensures d in ReachSet(g, roots)
  {
    var p :| IsPath(g, p) && p[0] in roots && p[|p| - 1] == k;
    PathSnoc(g, p, d);
    var q := p + [d];
    assert q[0] in roots && q[|q| - 1] == d;
  }
}
