/** checkDependencies (index.js:64-79): a depth-first walk that keeps the
    chain of names it is inside on an explicit stack and throws when it meets
    a name already on that stack. The stack is one JavaScript array shared by
    the whole walk; here it goes in and comes back out of every call, so that
    the balance of `push` (index.js:74) and `pop` (index.js:78) is stated. */
module Cycles {
  import opened Common
  import opened Graph

  /** Some chain of dependencies starting at `x` ends at a name already on
      `stack`, or at a name the chain itself has already visited. */
  ghost predicate Revisits(g: Graph, stack: seq<string>, x: string)
  {
    exists p :: IsPath(g, p) && p[0] == x && EndsBack(stack, p)
  }

  /** The last name of `p` is on `stack` or earlier in `p`. */
  ghost predicate EndsBack(stack: seq<string>, p: seq<string>)
    requires |p| > 0
  {
    p[|p| - 1] in stack || p[|p| - 1] in p[..|p| - 1]
  }

  /** Distinct nodes, as the stack always holds. */
  ghost predicate NodeStack(g: Graph, stack: seq<string>)
  {
    Distinct(stack) && forall i :: 0 <= i < |stack| ==> IsNode(g, stack[i])
  }

  /** What the stack looks like when a walk entered at `name` with `stack`
      throws: the old stack is still at the bottom; either `name` itself was
      on it, or above it lies the chain of names entered from `name` on,
      whose topmost name depends on a name already on the stack. */
  ghost predicate Reported(g: Graph, stack: seq<string>, name: string, reported: seq<string>)
  {
    && |stack| <= |reported| && reported[..|stack|] == stack
    && NodeStack(g, reported)
    && if |reported| == |stack| then name in stack
       else
         && reported[|stack|] == name
         && IsPath(g, reported[|stack|..])
         && exists d :: d in g[reported[|reported| - 1]] && d in reported
  }

  /** One call of checkDependencies. It returns normally exactly when no
      chain from `name` comes back to the stack or to itself, and then the
      stack is as it was; otherwise the error carries the stack at the moment
      of the revisit, which is a chain of distinct names and so never longer
      than the number of tasks. */
  method CheckDependencies(g: Graph, name: string, stack: seq<string>)
    returns (r: Outcome, stack': seq<string>)
    requires Closed(g)
    requires name == Callback || name in g
    requires NodeStack(g, stack)
    ensures r.Pass? <==> !Revisits(g, stack, name)
    ensures r.Pass? ==> stack' == stack
    ensures r.Fail? ==> r.error == CircularReference(stack') && Reported(g, stack, name, stack')
    ensures r.Fail? ==> |stack'| <= |g|
    decreases g.Keys - (set x | x in stack)
  {
    if name == Callback {
      return Pass, stack;
    }
    if IndexOf(stack, name) != -1 {
      RevisitsOnStack(g, stack, name);
      DistinctWithin(stack, g.Keys);
      assert stack[..|stack|] == stack;
      return Fail(CircularReference(stack)), stack;
    }
    var s := stack + [name];
    assert NodeStack(g, s);
    assert name in g.Keys - (set x | x in stack) && name !in g.Keys - (set x | x in s);
    var deps := g[name];
    var i := 0;
    while i < |deps|
      invariant 0 <= i <= |deps|
      invariant forall j :: 0 <= j < i ==> !Revisits(g, s, deps[j])
    {
      var r', s' := CheckDependencies(g, deps[i], s);
      if r'.Fail? {
        ReportedStep(g, stack, name, deps[i], s');
        DistinctWithin(s', g.Keys);
        RevisitsUp(g, stack, name, deps[i]);
        return r', s';
      }
      i := i + 1;
    }
    forall p | IsPath(g, p) && p[0] == name && EndsBack(stack, p) ensures false {
      RevisitsDown(g, stack, name, p);
    }
    s := s[..|s| - 1];
    return Pass, s;
  }

  /** A walk that throws below `name` reports a stack that also fits `name`. */
  lemma ReportedStep(g: Graph, stack: seq<string>, name: string, d: string, reported: seq<string>)
    requires IsNode(g, name) && d in g[name] && name !in stack
    requires Reported(g, stack + [name], d, reported)
    ensures Reported(g, stack, name, reported)
  {
    var s := stack + [name];
    assert reported[..|stack|] == s[..|stack|] == stack;
    assert reported[|stack|] == s[|stack|] == name;
    if |reported| == |s| {
      assert reported == s;
      assert reported[|stack|..] == [name];
      assert IsPath(g, [name]);
      assert d in g[reported[|reported| - 1]] && d in reported;
    } else {
      var q := reported[|s|..];
      assert IsNode(g, q[0]);
      PathCons(g, name, q);
      assert reported[|stack|..] == [name] + q;
    }
  }

  /** A name on the stack is revisited at once. */
  lemma RevisitsOnStack(g: Graph, stack: seq<string>, name: string)
    requires IsNode(g, name) && name in stack
    ensures Revisits(g, stack, name)
  {
    assert IsPath(g, [name]);
  }

  /** A revisiting chain from a node not on the stack continues as a
      revisiting chain from one of its dependencies once the node is pushed. */
  lemma RevisitsDown(g: Graph, stack: seq<string>, name: string, p: seq<string>)
    requires IsNode(g, name) && name !in stack
    requires IsPath(g, p) && p[0] == name && EndsBack(stack, p)
    ensures |p| > 1 && p[1] in g[name] && Revisits(g, stack + [name], p[1])
  {
    assert |p| > 1;
    var q := p[1..];
    PathSlice(g, p, 1, |p|);
    assert Step(g, p[0], p[1]);
    assert p[..|p| - 1] == [name] + q[..|q| - 1];
    assert EndsBack(stack + [name], q);
  }

  /** Conversely, a revisiting chain from a dependency extends back to the node. */
  lemma RevisitsUp(g: Graph, stack: seq<string>, name: string, d: string)
    requires IsNode(g, name) && name !in stack && d in g[name]
    requires Revisits(g, stack + [name], d)
    ensures Revisits(g, stack, name)
  {
    var q :| IsPath(g, q) && q[0] == d && EndsBack(stack + [name], q);
    PathCons(g, name, q);
    var p := [name] + q;
    assert p[..|p| - 1] == [name] + q[..|q| - 1];
    assert p[|p| - 1] == q[|q| - 1];
    assert EndsBack(stack, p);
  }

  /** Unfolding one step of the walk: from a node not on the stack, a
      revisiting chain exists exactly when one starts at a dependency once the
      node is pushed. */
  lemma RevisitsStep(g: Graph, stack: seq<string>, name: string)
    requires IsNode(g, name) && name !in stack
    ensures Revisits(g, stack, name) <==> exists d :: d in g[name] && Revisits(g, stack + [name], d)
  {
    if Revisits(g, stack, name) {
      var p :| IsPath(g, p) && p[0] == name && EndsBack(stack, p);
      RevisitsDown(g, stack, name, p);
    }
    if exists d :: d in g[name] && Revisits(g, stack + [name], d) {
      var d :| d in g[name] && Revisits(g, stack + [name], d);
      RevisitsUp(g, stack, name, d);
    }
  }

  /** With an empty stack, some name is revisited exactly when the graph has
      a cycle. */
  lemma AcyclicIffNoRevisit(g: Graph)
    ensures Acyclic(g) <==> forall x :: IsNode(g, x) ==> !Revisits(g, [], x)
  {
    if Acyclic(g) {
      forall p | IsPath(g, p) ensures !EndsBack([], p) {
        assert Distinct(p);
      }
    } else {
      var p :| IsPath(g, p) && !Distinct(p);
      var i, j :| 0 <= i < j < |p| && p[i] == p[j];
      PathSlice(g, p, i, j + 1);
      var q := p[i..j + 1];
      assert q[|q| - 1] == q[0] && q[0] in q[..|q| - 1];
      assert EndsBack([], q);
    }
  }
}
