/** buildDependencies (index.js:90-107): starting from the terminal
    function's parameters, collects every task they need, directly or not,
    into one dictionary `name -> copy of its dependency list`. There is no
    visited set: the walk ends only because the map is already known to be
    acyclic. */
module Reducer {
  import opened Common
  import opened Graph

  /** A plain JavaScript object from names to dependency lists: its keys in
      insertion order, and its entries. Copies of lists are values here. */
  datatype Table = Table(order: seq<string>, lists: map<string, seq<string>>)

  /** The key order lists every key exactly once. */
  ghost predicate WellFormed(t: Table)
  {
    Distinct(t.order) && forall x :: x in t.lists <==> x in t.order
  }

  /** Every entry is a task's own dependency list. */
  ghost predicate EntriesOf(t: Table, g: Graph)
  {
    forall k :: k in t.lists ==> IsNode(g, k) && t.lists[k] == g[k]
  }

  /** A root the walk can take: the callback name, skipped, or a task. */
  predicate Found(g: Graph, x: string)
  {
    x == Callback || x in g
  }

  /** `x` is the first root that is neither the callback name nor a task. */
  ghost predicate FirstMissing(g: Graph, roots: seq<string>, x: string)
  {
    && x in roots && !Found(g, x)
    && forall l :: 0 <= l < IndexOf(roots, x) ==> Found(g, roots[l])
  }

  /** `dependencies[name] = list`: a new key goes last, an existing one keeps
      its place. */
  function Put(t: Table, name: string, list: seq<string>): (r: Table)
    ensures WellFormed(t) ==> WellFormed(r)
    ensures r.lists == t.lists[name := list]
    ensures r.lists.Keys == t.lists.Keys + {name}
    ensures t.order <= r.order
  {
    Table(if name in t.lists then t.order else t.order + [name], t.lists[name := list])
  }

  /** buildDependencies(map, roots, list). It throws exactly when some root is
      neither the callback name nor a task, naming the first such root;
      otherwise it adds to `list` exactly the tasks reachable from the roots,
      each with its own dependency list, after the keys already there. */
  method BuildDependencies(g: Graph, roots: seq<string>, acc: Table) returns (r: Result<Table>)
    requires Closed(g) && Acyclic(g)
    requires WellFormed(acc) && EntriesOf(acc, g)
    ensures r.Ok? <==> forall x :: x in roots ==> Found(g, x)
    ensures r.Err? ==> r.error.MissingDependency? && FirstMissing(g, roots, r.error.name)
    ensures r.Ok? ==> WellFormed(r.value) && EntriesOf(r.value, g)
    ensures r.Ok? ==> acc.order <= r.value.order
    ensures r.Ok? ==> r.value.lists.Keys == acc.lists.Keys + ReachSet(g, roots)
    decreases ReachSet(g, roots), 1
  {
    var t := acc;
    var i := 0;
    ReachEmpty(g);
    while i < |roots|
      invariant 0 <= i <= |roots|
      invariant forall x :: x in roots[..i] ==> Found(g, x)
      invariant WellFormed(t) && EntriesOf(t, g)
      invariant acc.order <= t.order
      invariant t.lists.Keys == acc.lists.Keys + ReachSet(g, roots[..i])
    {
      ReachWithin(g, roots, i);
      var sub := Visit(g, roots[i], t);
      if sub.Err? {
        FirstMissingAt(g, roots, i);
        return sub;
      }
      ReachPrefixStep(g, roots, i);
      CoverStep(acc.lists.Keys, t.lists.Keys, sub.value.lists.Keys, ReachSet(g, roots[..i]), ReachSet(g, [roots[i]]));
      t := sub.value;
      i := i + 1;
    }
    assert roots[..|roots|] == roots;
    return Ok(t);
  }

  /** The body of the `forEach` for one root: the callback name is skipped, an
      unknown name throws, and a task is recorded before its own dependencies
      are walked. */
  method Visit(g: Graph, name: string, acc: Table) returns (r: Result<Table>)
    requires Closed(g) && Acyclic(g)
    requires WellFormed(acc) && EntriesOf(acc, g)
    ensures r.Ok? <==> Found(g, name)
    ensures r.Err? ==> r.error == MissingDependency(name)
    ensures r.Ok? ==> WellFormed(r.value) && EntriesOf(r.value, g)
    ensures r.Ok? ==> acc.order <= r.value.order
    ensures r.Ok? ==> r.value.lists.Keys == acc.lists.Keys + ReachSet(g, [name])
    decreases ReachSet(g, [name]), 0
  {
    ReachOne(g, name);
    if name == Callback {
      return Ok(acc);
    }
    if name !in g {
      return Err(MissingDependency(name));
    }
    var t := Put(acc, name, g[name]);
    ReachNotSelf(g, name);
    var sub := BuildDependencies(g, g[name], t);
    assert sub.Ok? by {
      forall x | x in g[name] ensures Found(g, x) { }
    }
    CoverStep(acc.lists.Keys, t.lists.Keys, sub.value.lists.Keys, {name}, ReachSet(g, g[name]));
    return sub;
  }

  lemma FirstMissingAt(g: Graph, roots: seq<string>, i: int)
    requires 0 <= i < |roots| && !Found(g, roots[i])
    requires forall x :: x in roots[..i] ==> Found(g, x)
    ensures FirstMissing(g, roots, roots[i])
  {
    var j := IndexOf(roots, roots[i]);
    assert roots[j] == roots[i];
    forall l | 0 <= l < j ensures Found(g, roots[l]) {
      assert roots[l] in roots[..i];
    }
  }

  /** Reaching from one more root adds what that root reaches. */
  lemma ReachPrefixStep(g: Graph, roots: seq<string>, i: int)
    requires 0 <= i < |roots|
    ensures roots[..i + 1] == roots[..i] + [roots[i]]
    ensures ReachSet(g, roots[..i + 1]) == ReachSet(g, roots[..i]) + ReachSet(g, [roots[i]])
  {
    assert roots[..i + 1] == roots[..i] + [roots[i]];
    ReachAppend(g, roots[..i], [roots[i]]);
  }

  /** The keys after one more root. */
  lemma CoverStep(start: set<string>, keys: set<string>, keys': set<string>, before: set<string>, more: set<string>)
    requires keys == start + before && keys' == keys + more
    ensures keys' == start + (before + more)
  {
  }

  /** What one root reaches is part of what all the roots reach. */
  lemma ReachWithin(g: Graph, roots: seq<string>, i: int)
    requires 0 <= i < |roots|
    ensures ReachSet(g, [roots[i]]) <= ReachSet(g, roots)
  {
    assert roots == roots[..i] + ([roots[i]] + roots[i + 1..]);
    ReachAppend(g, roots[..i], [roots[i]] + roots[i + 1..]);
    ReachAppend(g, [roots[i]], roots[i + 1..]);
  }
}
