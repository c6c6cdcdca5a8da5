/** The wavefront scheduler: the completion collector (index.js:109-135) and
    one call of runStack (index.js:137-206). A round launches every task of
    the current stack, then handles their completions one at a time, in
    whatever order they arrive; each completion is recorded in `resolved`,
    taken out of `all`, and crossed off the dependency lists of the tasks
    still waiting, which join the next stack once nothing but the callback
    name is left on their list. */
module Scheduler {
  import opened Common
  import opened Graph
  import opened Reducer

  // ---------------------------------------------------------------------
  // Values the tasks produce
  // ---------------------------------------------------------------------

  /** What a task hands back. Results are opaque; only their truthiness is
      ever inspected (index.js:156). */
  datatype Value = Null | Opaque(id: nat, truthy: bool)

  predicate Truthy(v: Value)
  {
    v.Opaque? && v.truthy
  }

  /** The `{ value, error }` record stored in `resolved`. */
  datatype Results = Results(value: Value, error: Value)

  /** How a task finishes: it invokes the callback it was given, or the value
      it returned settles as a promise would. */
  datatype Completion = Called(error: Value, value: Value) | Fulfilled(value: Value) | Rejected(reason: Value)

  /** The record the collector builds from a completion (index.js:113-125).
      The error passed to a callback is not kept: callbacks always record a
      null error. */
  function Record(c: Completion): Results
  {
    match c
    case Called(_, value) => Results(value, Null)
    case Fulfilled(value) => Results(value, Null)
    case Rejected(reason) => Results(Null, reason)
  }

  // ---------------------------------------------------------------------
  // Launching a task (index.js:186-204)
  // ---------------------------------------------------------------------

  /** The parameter names that receive a completion callback instead of a
      result: `/^(callback|handler|cb|h)$/` (index.js:193). */
  predicate IsCallbackAlias(x: string)
  {
    x == "callback" || x == "handler" || x == "cb" || x == "h"
  }

  /** One argument of a launched task. */
  datatype Arg = CallbackArg(task: string) | ValueArg(value: Value)

  /** A launch: the task and the arguments it is applied to; `viaCallback`
      says whether it reports through a callback or through its return
      value. */
  datatype Call = Call(name: string, args: seq<Arg>, viaCallback: bool)

  predicate HasCallback(deps: seq<string>)
  {
    exists i :: 0 <= i < |deps| && IsCallbackAlias(deps[i])
  }

  /** How the tasks report: a task that takes a callback reports through it,
      its return value being ignored, and any other task reports through
      what its return value settles as (index.js:190-203). */
  ghost predicate Consistent(g: Graph, outcome: string -> Completion)
  {
    forall k :: k in g ==> (outcome(k).Called? <==> HasCallback(g[k]))
  }

  /** Only a rejected promise records an error: a callback's error is
      dropped. */
  lemma ErrorIsRejection(g: Graph, outcome: string -> Completion, k: string)
    requires Consistent(g, outcome) && k in g && Truthy(Record(outcome(k)).error)
    ensures outcome(k).Rejected? && !HasCallback(g[k])
  {
  }

  /** `item.dependencies.map(...)` for task `name`: a callback for every alias,
      the recorded value for every other name. Reading the value of a name
      that has no record throws a TypeError, modelled as `None`. */
  function LaunchArguments(name: string, deps: seq<string>, resolved: map<string, Results>): (r: Option<seq<Arg>>)
    ensures r.Some? <==> forall d :: d in deps ==> IsCallbackAlias(d) || d in resolved
    ensures r.Some? ==> |r.value| == |deps|
    ensures r.Some? ==> forall i :: 0 <= i < |deps| && IsCallbackAlias(deps[i]) ==> r.value[i] == CallbackArg(name)
    ensures r.Some? ==> forall i :: 0 <= i < |deps| && !IsCallbackAlias(deps[i]) ==>
      r.value[i] == ValueArg(resolved[deps[i]].value)
  {
    if |deps| == 0 then Some([])
    else
      var rest := LaunchArguments(name, deps[1..], resolved);
      var first := if IsCallbackAlias(deps[0]) then Some(CallbackArg(name))
                   else if deps[0] in resolved then Some(ValueArg(resolved[deps[0]].value))
                   else None;
      assert forall d :: d in deps <==> d == deps[0] || d in deps[1..];
      if first.None? || rest.None? then None
      else Some([first.value] + rest.value)
  }

  // ---------------------------------------------------------------------
  // The state shared by the rounds
  // ---------------------------------------------------------------------

  /** A list that lets its task run: empty, or only the callback name
      (index.js:172, index.js:219-221). */
  predicate Ready(l: seq<string>)
  {
    l == [] || l == [Callback]
  }

  /** The elements of `s` that satisfy `p`, in order: what a `forEach` that
      pushes the keys passing a test builds. */
  function Filter(s: seq<string>, p: string -> bool): (r: seq<string>)
    ensures forall x :: x in r <==> x in s && p(x)
    ensures Distinct(s) ==> Distinct(r)
    decreases |s|
  {
    if |s| == 0 then []
    else
      var last := s[|s| - 1];
      var init := Filter(s[..|s| - 1], p);
      assert s == s[..|s| - 1] + [last];
      if p(last) then init + [last] else init
  }

  /** Filtering keeps the order: it filters each part on its own and joins
      the results. */
  lemma {:induction false} FilterAppend(a: seq<string>, b: seq<string>, p: string -> bool)
    ensures Filter(a + b, p) == Filter(a, p) + Filter(b, p)
    decreases |b|
  {
    if b == [] {
      assert a + b == a;
    } else {
      var ab := a + b;
      assert ab[..|ab| - 1] == a + b[..|b| - 1] && ab[|ab| - 1] == b[|b| - 1];
      FilterAppend(a, b[..|b| - 1], p);
    }
  }

  /** One element is kept exactly when it passes the test. */
  lemma FilterOne(x: string, p: string -> bool)
    ensures Filter([x], p) == if p(x) then [x] else []
  {
    assert [x][..0] == [];
  }

  /** The keys of `all` whose list is ready, in key order: the first stack
      (index.js:218-224). */
  function ReadyKeys(all: Table): seq<string>
  {
    Filter(all.order, k => k in all.lists && Ready(all.lists[k]))
  }

  /** `delete all[name]` (index.js:150). */
  function Delete(t: Table, name: string): (r: Table)
    ensures r.lists == t.lists - {name}
  {
    Table(RemoveFirst(t.order, name), t.lists - {name})
  }

  /** Every list loses its first occurrence of `name`, if it has one
      (index.js:165-169). */
  function PruneAll(lists: map<string, seq<string>>, name: string): map<string, seq<string>>
  {
    map k | k in lists :: RemoveFirst(lists[k], name)
  }

  /** `l` once the names `xs` are crossed off it in turn, each losing its
      first occurrence. */
  function RemoveAllOf(l: seq<string>, xs: seq<string>): seq<string>
    decreases |xs|
  {
    if xs == [] then l else RemoveFirst(RemoveAllOf(l, xs[..|xs| - 1]), xs[|xs| - 1])
  }

  /** Crossing names off a list takes away one copy of each name that is
      there. */
  lemma {:induction false} RemoveAllOfCount(l: seq<string>, xs: seq<string>)
    ensures multiset(RemoveAllOf(l, xs)) == multiset(l) - multiset(xs)
    decreases |xs|
  {
    if xs != [] {
      var init, x := xs[..|xs| - 1], xs[|xs| - 1];
      RemoveAllOfCount(l, init);
      Snoc(xs);
      CountStep(RemoveAllOf(l, init), multiset(l), multiset(init), x);
    }
  }

  lemma CountStep(m: seq<string>, whole: multiset<string>, gone: multiset<string>, x: string)
    requires multiset(m) == whole - gone
    ensures multiset(RemoveFirst(m, x)) == whole - (gone + multiset{x})
  {
    if x in m {
      RemoveFirstCount(m, x);
    } else {
      assert multiset(m)[x] == 0;
    }
  }

  /** Crossing names off a list keeps the order of what is left. */
  lemma {:induction false} RemoveAllOfOrder(l: seq<string>, xs: seq<string>)
    ensures Subsequence(RemoveAllOf(l, xs), l)
    decreases |xs|
  {
    if xs == [] {
      SubsequenceSlice(l, 0, |l|);
      assert l[0..|l|] == l;
    } else {
      var m := RemoveAllOf(l, xs[..|xs| - 1]);
      RemoveAllOfOrder(l, xs[..|xs| - 1]);
      RemoveFirstOrder(m, xs[|xs| - 1]);
      SubsequenceTrans(RemoveFirst(m, xs[|xs| - 1]), m, l);
    }
  }

  /** Crossing `name` off the list of `k` leaves that list ready. */
  predicate Releases(lists: map<string, seq<string>>, name: string, k: string)
  {
    k in lists && name in lists[k] && Ready(RemoveFirst(lists[k], name))
  }

  /** The keys pushed on the next stack when `name` completes, in key order. */
  function Released(order: seq<string>, lists: map<string, seq<string>>, name: string): seq<string>
  {
    Filter(order, k => Releases(lists, name, k))
  }

  /** What one handled completion leaves of the round: `all`, `resolved`,
      `nextStack`, `done`, and the task whose error ended the round. */
  datatype Round = Round(
    all: Table,
    resolved: map<string, Results>,
    nextStack: seq<string>,
    done: bool,
    failed: Option<string>)

  /** The completion handler (index.js:144-184) for a stack of `size` tasks,
      the `index`-th report being `name` with `results`. A handler that
      throws after setting `done` (index.js:156-161) is modelled as stopping
      there with `failed` set. */
  function Handle(s: Round, size: nat, name: string, results: Results, index: nat): Round
  {
    if s.done then s
    else
      var all := Delete(s.all, name);
      var resolved := s.resolved[name := results];
      if Truthy(results.error) then Round(all, resolved, s.nextStack, true, Some(name))
      else
        Round(Table(all.order, PruneAll(all.lists, name)), resolved,
              s.nextStack + Released(all.order, all.lists, name), index == size, s.failed)
  }

  // ---------------------------------------------------------------------
  // Invariants
  // ---------------------------------------------------------------------

  /** Every dependency of a task still waiting is either still on its list or
      already has a record. */
  ghost predicate Ledger(g: Graph, lists: map<string, seq<string>>, resolved: map<string, Results>)
  {
    forall k, d :: k in lists && k in g && d in g[k] ==> d in lists[k] || d in resolved
  }

  /** What holds of `all` and `resolved` at every step: `all` is a well-formed
      object of tasks whose lists are parts of their declared dependencies,
      and the ledger balances. */
  ghost predicate Safe(g: Graph, all: Table, resolved: map<string, Results>)
  {
    && WellFormed(all)
    && Callback !in all.lists
    && SubGraph(all.lists, g)
    && Ledger(g, all.lists, resolved)
  }

  /** `all` is closed under its lists and no list names a task twice. */
  ghost predicate Closure(all: Table)
  {
    && Closed(all.lists)
    && forall k :: k in all.lists ==> Distinct(all.lists[k])
  }

  /** The bookkeeping of one round over the lists of `all`: every ready task
      still in `all` is in the stack being run or already on the next stack,
      and nothing is pushed twice. */
  ghost predicate Tracked(lists: map<string, seq<string>>, stack: seq<string>, nextStack: seq<string>)
  {
    && Distinct(stack) && Distinct(nextStack)
    && (forall k :: k in nextStack ==> k !in stack && k in lists && Ready(lists[k]))
    && (forall k :: k in stack && k in lists ==> Ready(lists[k]))
    && (forall k :: k in lists && Ready(lists[k]) ==> k in stack || k in nextStack)
  }

  // ---------------------------------------------------------------------
  // Lemmas
  // ---------------------------------------------------------------------

  /** Deleting a key keeps the key order exact. */
  lemma DeleteWellFormed(t: Table, name: string)
    requires WellFormed(t)
    ensures WellFormed(Delete(t, name))
  {
    DistinctRemoveFirst(t.order, name);
    forall x ensures x in RemoveFirst(t.order, name) <==> x in t.order && x != name {
      RemoveFirstMembers(t.order, name, x);
    }
  }

  /** Crossing off takes exactly one occurrence of `name` from every list that
      has one and leaves the other lists alone. */
  lemma PruneAllCount(lists: map<string, seq<string>>, name: string, k: string)
    requires k in lists
    ensures k in PruneAll(lists, name)
    ensures name in lists[k] ==> multiset(PruneAll(lists, name)[k]) == multiset(lists[k]) - multiset{name}
    ensures name !in lists[k] ==> PruneAll(lists, name)[k] == lists[k]
  {
    if name in lists[k] {
      RemoveFirstCount(lists[k], name);
    }
  }

  /** A ready task has a record for every dependency other than the callback
      name, so launching it reads no missing value: no task runs before its
      inputs. */
  lemma ReadyHasInputs(g: Graph, all: Table, resolved: map<string, Results>, k: string)
    requires Safe(g, all, resolved) && k in all.lists && Ready(all.lists[k])
    ensures k in g
    ensures forall d :: d in g[k] && d != Callback ==> d in resolved
    ensures LaunchArguments(k, g[k], resolved).Some?
  {
    forall d | d in g[k] ensures IsCallbackAlias(d) || d in resolved {
      assert d in all.lists[k] || d in resolved;
    }
  }

  /** The object built by buildDependencies starts the ledger. */
  lemma InitiallySafe(g: Graph, all: Table)
    requires WellFormed(all) && EntriesOf(all, g)
    ensures Safe(g, all, map[])
  {
  }

  /** When the graph is closed and its lists repeat no name, so is the object
      buildDependencies builds from it. */
  lemma InitialClosure(g: Graph, roots: seq<string>, all: Table)
    requires Closed(g) && EntriesOf(all, g)
    requires all.lists.Keys == ReachSet(g, roots)
    requires forall k :: k in g ==> Distinct(g[k])
    ensures Closure(all)
  {
    forall k, d | k in all.lists && d in all.lists[k] ensures d == Callback || d in all.lists {
      if d != Callback {
        ReachStep(g, roots, k, d);
      }
    }
  }

  /** The first stack is exactly the ready keys, so a round starts tracked. */
  lemma InitiallyTracked(all: Table)
    requires WellFormed(all)
    ensures Tracked(all.lists, ReadyKeys(all), [])
    ensures Tracked(all.lists, [], ReadyKeys(all))
  {
  }

  /** Which keys a completion releases. */
  lemma ReleasedMembers(order: seq<string>, lists: map<string, seq<string>>, name: string)
    ensures forall k :: k in Released(order, lists, name) <==> k in order && Releases(lists, name, k)
    ensures Distinct(order) ==> Distinct(Released(order, lists, name))
  {
  }

  /** A handled success keeps `all` safe. */
  lemma HandleSafe(g: Graph, s: Round, size: nat, name: string, results: Results, index: nat)
    requires Safe(g, s.all, s.resolved) && !s.done && !Truthy(results.error)
    ensures Safe(g, Handle(s, size, name, results, index).all, Handle(s, size, name, results, index).resolved)
  {
    var d := Delete(s.all, name);
    DeleteWellFormed(s.all, name);
    var r := Handle(s, size, name, results, index);
    forall k | k in r.all.lists ensures k in g && forall x :: x in r.all.lists[k] ==> x in g[k] {
      forall x | x in r.all.lists[k] ensures x in g[k] {
        RemoveFirstMembers(s.all.lists[k], name, x);
      }
    }
    forall k, x | k in r.all.lists && k in g && x in g[k] ensures x in r.all.lists[k] || x in r.resolved {
      RemoveFirstMembers(s.all.lists[k], name, x);
    }
  }

  /** A handled success keeps `all` closed. */
  lemma HandleClosure(s: Round, size: nat, name: string, results: Results, index: nat)
    requires Closure(s.all) && !s.done && !Truthy(results.error)
    ensures Closure(Handle(s, size, name, results, index).all)
  {
    var d := Delete(s.all, name);
    HandleSuccess(s, size, name, results, index);
    PruneDeleted(s.all.lists, name);
    ClosureStep(s.all.lists, PruneAll(d.lists, name), name);
  }

  /** The same, stated on the lists alone. */
  lemma ClosureStep(lists: map<string, seq<string>>, lists': map<string, seq<string>>, name: string)
    requires Closed(lists) && forall k :: k in lists ==> Distinct(lists[k])
    requires lists'.Keys == lists.Keys - {name}
    requires forall k :: k in lists' ==> lists'[k] == RemoveFirst(lists[k], name)
    ensures Closed(lists') && forall k :: k in lists' ==> Distinct(lists'[k])
  {
    forall k | k in lists' ensures Distinct(lists'[k]) && name !in lists'[k] {
      DistinctRemoveFirst(lists[k], name);
    }
    forall k, x | k in lists' && x in lists'[k] ensures x == Callback || x in lists' {
      RemoveFirstMembers(lists[k], name, x);
    }
  }

  /** A handled success of a task of the stack keeps the round tracked: the
      tasks it releases are pushed once each, and nothing else becomes
      ready. */
  lemma HandleTracked(s: Round, stack: seq<string>, name: string, results: Results, index: nat)
    requires WellFormed(s.all) && Callback !in s.all.lists
    requires Tracked(s.all.lists, stack, s.nextStack)
    requires !s.done && !Truthy(results.error) && name in stack && name in s.all.lists
    ensures Tracked(Handle(s, |stack|, name, results, index).all.lists, stack, Handle(s, |stack|, name, results, index).nextStack)
  {
    var d := Delete(s.all, name);
    HandleSuccess(s, |stack|, name, results, index);
    PruneDeleted(s.all.lists, name);
    ReleasedDeleted(s.all, name);
    TrackedStep(s.all.lists, PruneAll(d.lists, name), stack, s.nextStack, Released(d.order, d.lists, name), name);
  }

  /** What a handled success leaves of `all` and of the next stack. */
  lemma HandleSuccess(s: Round, size: nat, name: string, results: Results, index: nat)
    requires !s.done && !Truthy(results.error)
    ensures var d := Delete(s.all, name);
      && Handle(s, size, name, results, index).all.lists == PruneAll(d.lists, name)
      && Handle(s, size, name, results, index).nextStack == s.nextStack + Released(d.order, d.lists, name)
  {
  }

  /** Crossing `name` off the lists left once its own key is deleted. */
  lemma PruneDeleted(lists: map<string, seq<string>>, name: string)
    ensures PruneAll(lists - {name}, name).Keys == lists.Keys - {name}
    ensures forall k :: k in PruneAll(lists - {name}, name) ==> PruneAll(lists - {name}, name)[k] == RemoveFirst(lists[k], name)
  {
  }

  /** The keys released once `name`'s own key is deleted, stated on the lists
      before the deletion. */
  lemma ReleasedDeleted(all: Table, name: string)
    requires WellFormed(all)
    ensures var d := Delete(all, name);
      && Distinct(Released(d.order, d.lists, name))
      && forall k :: k in Released(d.order, d.lists, name) <==> k in d.lists && Releases(all.lists, name, k)
  {
    var d := Delete(all, name);
    DeleteWellFormed(all, name);
    ReleasedMembers(d.order, d.lists, name);
  }

  /** The same, stated on the lists alone. */
  lemma TrackedStep(lists: map<string, seq<string>>, lists': map<string, seq<string>>,
                    stack: seq<string>, nextStack: seq<string>, pushed: seq<string>, name: string)
    requires Tracked(lists, stack, nextStack)
    requires Callback !in lists && name in stack && name in lists
    requires lists'.Keys == lists.Keys - {name}
    requires forall k :: k in lists' ==> lists'[k] == RemoveFirst(lists[k], name)
    requires forall k :: k in pushed <==> k in lists' && Releases(lists, name, k)
    requires Distinct(pushed)
    ensures Tracked(lists', stack, nextStack + pushed)
  {
    ReadyKept(lists, lists', name);
    forall k | k in pushed ensures k !in nextStack && k !in stack {
      ReadyUntouched(lists[k], name);
    }
    DistinctConcat(nextStack, pushed);
    forall k | k in lists' && Ready(lists'[k]) ensures k in stack || k in nextStack + pushed {
      if name !in lists[k] {
        assert lists'[k] == lists[k];
      }
    }
  }

  /** A list that is ready is left as it is once a task's name is crossed
      off every list. */
  lemma ReadyKept(lists: map<string, seq<string>>, lists': map<string, seq<string>>, name: string)
    requires Callback !in lists && name in lists
    requires lists'.Keys == lists.Keys - {name}
    requires forall k :: k in lists' ==> lists'[k] == RemoveFirst(lists[k], name)
    ensures forall k :: k in lists' && Ready(lists[k]) ==> name !in lists[k] && lists'[k] == lists[k]
  {
    forall k | k in lists' && Ready(lists[k]) ensures name !in lists[k] && lists'[k] == lists[k] {
      ReadyUntouched(lists[k], name);
    }
  }

  /** A ready list holds no task's name. */
  lemma ReadyUntouched(l: seq<string>, name: string)
    requires name != Callback
    ensures Ready(l) ==> name !in l && RemoveFirst(l, name) == l
  {
  }

  /** A list of distinct names, all of them the callback name, is ready. */
  lemma OnlyCallback(l: seq<string>)
    requires Distinct(l) && forall x :: x in l ==> x == Callback
    ensures Ready(l)
  {
    forall i | 0 <= i < |l| ensures l[i] in {Callback} {
      assert l[i] in l;
    }
    DistinctWithin(l, {Callback});
    if |l| == 1 {
      assert l[0] in l;
      assert l == [l[0]];
    }
  }

  /** Progress: once every task of the stack has completed, a closed, acyclic
      `all` that still has tasks has pushed one of them on the next stack. */
  lemma RoundProgress(g: Graph, all: Table, stack: seq<string>, nextStack: seq<string>)
    requires Acyclic(g) && SubGraph(all.lists, g) && Callback !in all.lists
    requires Closure(all) && Tracked(all.lists, stack, nextStack)
    requires forall k :: k in stack ==> k !in all.lists
    ensures all.lists != map[] ==> nextStack != []
  {
    if all.lists != map[] {
      var x :| x in all.lists;
      SubGraphAcyclic(all.lists, g);
      Sink(all.lists, x);
      var k :| IsSink(all.lists, k);
      OnlyCallback(all.lists[k]);
      assert k in nextStack;
    }
  }

  // ---------------------------------------------------------------------
  // The handler's prune loop and the round
  // ---------------------------------------------------------------------

  /** The loop over the keys of `all` in the handler (index.js:164-177), run
      after `name` itself has been deleted: each list that holds `name` loses
      its first occurrence, and the key is pushed when what is left is ready. */
  method Prune(order: seq<string>, lists: map<string, seq<string>>, name: string)
    returns (pruned: map<string, seq<string>>, pushed: seq<string>)
    requires Distinct(order) && forall k :: k in lists <==> k in order
    ensures pruned == PruneAll(lists, name)
    ensures pushed == Released(order, lists, name)
  {
    pruned := lists;
    pushed := [];
    var i := 0;
    while i < |order|
      invariant 0 <= i <= |order|
      invariant pruned == PruneKeys(lists, order[..i], name)
      invariant pushed == Released(order[..i], lists, name)
    {
      var k := order[i];
      PruneUntouched(order, lists, name, i);
      var rest, release := CrossOff(pruned[k], name);
      PruneKeysSnoc(order, lists, name, i);
      pruned := pruned[k := rest];
      ReleasedSnoc(order, lists, name, i, release, pushed);
      if release {
        pushed := pushed + [k];
      }
      i := i + 1;
    }
    assert order[..|order|] == order;
    PruneKeysAll(order, lists, name);
  }

  /** The lists once the prune loop has visited the keys `ks`: each visited
      key's list has lost its first occurrence of `name`. */
  ghost function PruneKeys(lists: map<string, seq<string>>, ks: seq<string>, name: string): map<string, seq<string>>
    decreases |ks|
  {
    if ks == [] then lists
    else
      var k := ks[|ks| - 1];
      var p := PruneKeys(lists, ks[..|ks| - 1], name);
      if k in lists then p[k := RemoveFirst(lists[k], name)] else p
  }

  /** A key's entry after visiting `ks`. */
  lemma {:induction false} PruneKeysAt(lists: map<string, seq<string>>, ks: seq<string>, name: string, k: string)
    requires k in lists
    ensures k in PruneKeys(lists, ks, name)
    ensures PruneKeys(lists, ks, name)[k] == if k in ks then RemoveFirst(lists[k], name) else lists[k]
    decreases |ks|
  {
    if ks != [] {
      var init := ks[..|ks| - 1];
      assert ks == init + [ks[|ks| - 1]];
      PruneKeysAt(lists, init, name, k);
    }
  }

  /** Visiting keys adds none. */
  lemma {:induction false} PruneKeysKeys(lists: map<string, seq<string>>, ks: seq<string>, name: string)
    ensures PruneKeys(lists, ks, name).Keys == lists.Keys
    decreases |ks|
  {
    if ks != [] {
      PruneKeysKeys(lists, ks[..|ks| - 1], name);
    }
  }

  /** Visiting one more key. */
  lemma PruneKeysSnoc(order: seq<string>, lists: map<string, seq<string>>, name: string, i: int)
    requires 0 <= i < |order| && order[i] in lists
    ensures PruneKeys(lists, order[..i + 1], name)
      == PruneKeys(lists, order[..i], name)[order[i] := RemoveFirst(lists[order[i]], name)]
  {
    assert order[..i + 1][..i] == order[..i];
  }

  /** The key visited next still has its list as it was. */
  lemma PruneUntouched(order: seq<string>, lists: map<string, seq<string>>, name: string, i: int)
    requires 0 <= i < |order| && Distinct(order) && (forall k :: k in lists <==> k in order)
    ensures order[i] in lists
    ensures order[i] in PruneKeys(lists, order[..i], name)
    ensures PruneKeys(lists, order[..i], name)[order[i]] == lists[order[i]]
  {
    forall j | 0 <= j < i ensures order[j] != order[i] { }
    assert order[i] !in order[..i];
    PruneKeysAt(lists, order[..i], name, order[i]);
  }

  /** Visiting every key builds PruneAll. */
  lemma PruneKeysAll(order: seq<string>, lists: map<string, seq<string>>, name: string)
    requires forall k :: k in lists <==> k in order
    ensures PruneKeys(lists, order, name) == PruneAll(lists, name)
  {
    PruneKeysKeys(lists, order, name);
    forall k | k in lists ensures PruneKeys(lists, order, name)[k] == RemoveFirst(lists[k], name) {
      PruneKeysAt(lists, order, name, k);
    }
  }

  /** The body of the prune loop for one list: the first occurrence of `name`
      is spliced out, and the key is to be pushed when `name` was there and
      what is left holds nothing or only the callback name. */
  method CrossOff(deps: seq<string>, name: string) returns (rest: seq<string>, release: bool)
    ensures rest == RemoveFirst(deps, name)
    ensures release <==> name in deps && Ready(rest)
  {
    rest := deps;
    release := false;
    var found := IndexOf(deps, name);
    if found != -1 {
      rest := deps[..found] + deps[found + 1..];
      ReadyShape(rest);
      release := |rest| == 0 || (|rest| == 1 && rest[0] == Callback);
    }
  }

  /** The released keys of one more key of the order. */
  lemma ReleasedSnoc(order: seq<string>, lists: map<string, seq<string>>, name: string, i: int,
                     release: bool, pushed: seq<string>)
    requires 0 <= i < |order| && release == Releases(lists, name, order[i])
    requires pushed == Released(order[..i], lists, name)
    ensures release ==> Released(order[..i + 1], lists, name) == pushed + [order[i]]
    ensures !release ==> Released(order[..i + 1], lists, name) == pushed
  {
    assert order[..i + 1][..i] == order[..i];
  }

  /** The test of index.js:172 is Ready. */
  lemma ReadyShape(l: seq<string>)
    ensures Ready(l) <==> |l| == 0 || (|l| == 1 && l[0] == Callback)
  {
    if |l| == 1 {
      assert l == [l[0]];
    }
  }

  /** One call of runStack: the collector, with its counter, and the state
      its handler updates. `all` and `resolved` are the objects shared with
      the runner; `nextStack`, `done` and the counter belong to this call. */
  class Scheduler {
    const g: Graph
    const stack: seq<string>
    var all: Table
    var resolved: map<string, Results>
    var nextStack: seq<string>
    var done: bool
    var counter: nat
    var failed: Option<string>

    /** The state the handler reads and writes. */
    function State(): Round
      reads this
    {
      Round(all, resolved, nextStack, done, failed)
    }

    /** runStack(stack, resolved, map, all) before any task is launched. */
    constructor (g: Graph, stack: seq<string>, all: Table, resolved: map<string, Results>)
      ensures this.g == g && this.stack == stack
      ensures State() == Round(all, resolved, [], false, None) && counter == 0
    {
      this.g := g;
      this.stack := stack;
      this.all := all;
      this.resolved := resolved;
      nextStack := [];
      done := false;
      counter := 0;
      failed := None;
    }

    /** The launch loop (index.js:186-204): every task of the stack is applied
        to its arguments. Each one finds a record for every input that is not
        a callback, so no launch throws. */
    method Launch() returns (calls: seq<Call>)
      requires Safe(g, all, resolved)
      requires forall k :: k in stack ==> k in all.lists && Ready(all.lists[k])
      ensures |calls| == |stack|
      ensures forall i :: 0 <= i < |stack| ==>
        && stack[i] in g
        && LaunchArguments(stack[i], g[stack[i]], resolved).Some?
        && calls[i] == Call(stack[i], LaunchArguments(stack[i], g[stack[i]], resolved).value, HasCallback(g[stack[i]]))
    {
      calls := [];
      var i := 0;
      while i < |stack|
        invariant 0 <= i <= |stack|
        invariant |calls| == i
        invariant forall j :: 0 <= j < i ==>
          && stack[j] in g
          && LaunchArguments(stack[j], g[stack[j]], resolved).Some?
          && calls[j] == Call(stack[j], LaunchArguments(stack[j], g[stack[j]], resolved).value, HasCallback(g[stack[j]]))
      {
        var name := stack[i];
        ReadyHasInputs(g, all, resolved, name);
        var args := LaunchArguments(name, g[name], resolved);
        calls := calls + [Call(name, args.value, HasCallback(g[name]))];
        i := i + 1;
      }
    }

    /** A task reports (index.js:113-116, index.js:120-125): the counter goes
        up by one and the handler runs with the new count. */
    method Report(name: string, c: Completion)
      requires WellFormed(all)
      modifies this
      ensures counter == old(counter) + 1
      ensures State() == Handle(old(State()), |stack|, name, Record(c), counter)
      ensures WellFormed(all)
    {
      counter := counter + 1;
      OnComplete(name, Record(c), counter);
    }

    /** The completion handler (index.js:144-184). Once `done` is set nothing
        changes; `done` is set by an error or by the last report. */
    method OnComplete(name: string, results: Results, index: nat)
      requires WellFormed(all)
      modifies this
      ensures counter == old(counter)
      ensures State() == Handle(old(State()), |stack|, name, results, index)
      ensures old(done) ==> State() == old(State())
      ensures done <==> old(done) || Truthy(results.error) || index == |stack|
      ensures WellFormed(all)
    {
      if done {
        return;
      }
      DeleteWellFormed(all, name);
      all := Delete(all, name);
      resolved := resolved[name := results];
      if Truthy(results.error) {
        done := true;
        failed := Some(name);
        return;
      }
      var pruned, pushed := Prune(all.order, all.lists, name);
      all := Table(all.order, pruned);
      nextStack := nextStack + pushed;
      if index == |stack| {
        done := true;
      }
    }

    /** One round: every task of the stack reports exactly once, in the order
        `events` gives, with the completion `outcome` gives it. The round
        fails exactly when some task reports an error; otherwise every task
        of the stack has a record and has left `all`, the ledger still
        balances, and every task that became ready is on the next stack. */
    method RunRound(events: seq<string>, outcome: string -> Completion)
      requires Safe(g, all, resolved) && Tracked(all.lists, stack, [])
      requires State() == Round(all, resolved, [], false, None) && counter == 0
      requires forall k :: k in stack ==> k in all.lists
      requires |events| == |stack| && Distinct(events) && forall k :: k in events <==> k in stack
      modifies this
      ensures counter == |stack|
      ensures done <==> |stack| > 0
      ensures failed.None? <==> forall k :: k in stack ==> !Truthy(Record(outcome(k)).error)
      ensures failed.Some? ==> failed.value in stack && Truthy(Record(outcome(failed.value)).error)
      ensures old(resolved).Keys <= resolved.Keys
      ensures failed.None? ==> Safe(g, all, resolved) && Tracked(all.lists, stack, nextStack)
      ensures failed.None? ==> forall k :: k in all.lists <==> k in old(all.lists) && k !in stack
      ensures failed.None? ==> forall k :: k in stack ==> k in resolved && resolved[k] == Record(outcome(k))
      ensures failed.None? ==> forall k :: k in resolved && k !in stack ==> k in old(resolved) && resolved[k] == old(resolved)[k]
      ensures failed.None? && Closure(old(all)) ==> Closure(all)
      ensures failed.None? ==> forall k :: k in all.lists ==>
        k in old(all.lists) && all.lists[k] == RemoveAllOf(old(all.lists)[k], events)
    {
      ghost var start := State();
      var i := 0;
      while i < |events|
        invariant 0 <= i <= |events|
        invariant counter == i
        invariant RoundInv(g, start, stack, events[..i], outcome, State())
      {
        var name := events[i];
        PrefixSnoc(events, i);
        forall j | 0 <= j < i ensures events[j] != name { }
        ghost var next := Handle(State(), |stack|, name, Record(outcome(name)), i + 1);
        RoundStep(g, start, stack, events[..i], events[..i + 1], name, outcome, State());
        Report(name, outcome(name));
        assert State() == next;
        i := i + 1;
      }
      assert events[..|events|] == events;
    }
  }

  /** runStack(stack, resolved, map, all) (index.js:137-206) run to the end
      of its round: the tasks of the stack are launched and report in the
      order `events` gives. The values returned are what the round leaves
      of `all`, `resolved` and the next stack, the task whose error
      stopped it, if one did, and whether the promise of runStack settles:
      it does not on an empty stack, where no report reaches the length
      test, nor after an error, where the handler throws. */
  method RunStack(g: Graph, stack: seq<string>, all: Table, resolved: map<string, Results>,
                  events: seq<string>, outcome: string -> Completion)
    returns (failed: Option<string>, all': Table, resolved': map<string, Results>, nextStack: seq<string>,
             settled: bool)
    requires Safe(g, all, resolved) && Tracked(all.lists, stack, [])
    requires forall k :: k in stack ==> k in all.lists
    requires |events| == |stack| && Distinct(events) && forall k :: k in events <==> k in stack
    requires Consistent(g, outcome)
    ensures settled <==> stack != [] && failed.None?
    ensures failed.None? <==> forall k :: k in stack ==> !Truthy(Record(outcome(k)).error)
    ensures failed.Some? ==> failed.value in stack && Truthy(Record(outcome(failed.value)).error)
    ensures failed.Some? ==> failed.value in g && outcome(failed.value).Rejected? && !HasCallback(g[failed.value])
    ensures resolved.Keys <= resolved'.Keys
    ensures failed.None? ==> Safe(g, all', resolved') && Tracked(all'.lists, stack, nextStack)
    ensures failed.None? ==> forall k :: k in all'.lists <==> k in all.lists && k !in stack
    ensures failed.None? ==> forall k :: k in stack ==> k in resolved' && resolved'[k] == Record(outcome(k))
    ensures failed.None? ==> forall k :: k in resolved' && k !in stack ==> k in resolved && resolved'[k] == resolved[k]
    ensures failed.None? && Closure(all) ==> Closure(all')
    ensures failed.None? ==> forall k :: k in all'.lists ==>
      k in all.lists && all'.lists[k] == RemoveAllOf(all.lists[k], events)
  {
    var s := new Scheduler(g, stack, all, resolved);
    // The calls themselves are not needed here: launching only shows that
    // no task of the stack reads a missing record.
    var _ := s.Launch();
    s.RunRound(events, outcome);
    failed, all', resolved', nextStack := s.failed, s.all, s.resolved, s.nextStack;
    settled := s.done && s.failed.None?;
    if failed.Some? {
      ErrorIsRejection(g, outcome, failed.value);
    }
  }

  /** What holds after the reports `reported` of a round that began in
      `start`: see RunRound. */
  ghost predicate RoundInv(g: Graph, start: Round, stack: seq<string>, reported: seq<string>,
                           outcome: string -> Completion, s: Round)
  {
    && WellFormed(s.all)
    && start.resolved.Keys <= s.resolved.Keys
    && (s.failed.Some? ==> s.done && s.failed.value in stack && Truthy(Record(outcome(s.failed.value)).error))
    && (s.failed.None? ==> Clean(g, start, stack, reported, outcome, s))
  }

  /** The part of RoundInv for a round no error has stopped. */
  ghost predicate Clean(g: Graph, start: Round, stack: seq<string>, reported: seq<string>,
                        outcome: string -> Completion, s: Round)
  {
    && Sound(g, start, stack, s)
    && Booked(start, stack, reported, outcome, s)
  }

  /** The invariants of `all`, `resolved` and the next stack. */
  ghost predicate Sound(g: Graph, start: Round, stack: seq<string>, s: Round)
  {
    && Safe(g, s.all, s.resolved) && Tracked(s.all.lists, stack, s.nextStack)
    && (Closure(start.all) ==> Closure(s.all))
  }

  /** What the reports so far have done: who reported, who left `all`, what
      was recorded. */
  ghost predicate Booked(start: Round, stack: seq<string>, reported: seq<string>,
                         outcome: string -> Completion, s: Round)
  {
    && (s.done <==> |reported| > 0 && |reported| == |stack|)
    && (forall k :: k in reported ==> !Truthy(Record(outcome(k)).error))
    && (forall k :: k in s.all.lists <==> k in start.all.lists && k !in reported)
    && (forall k :: k in reported ==> k in s.resolved && s.resolved[k] == Record(outcome(k)))
    && (forall k :: k in s.resolved && k !in reported ==> k in start.resolved && s.resolved[k] == start.resolved[k])
    && (forall k :: k in s.all.lists ==> k in start.all.lists && s.all.lists[k] == RemoveAllOf(start.all.lists[k], reported))
  }

  /** One more report keeps RoundInv. */
  lemma RoundStep(g: Graph, start: Round, stack: seq<string>, reported: seq<string>, reported': seq<string>,
                  name: string, outcome: string -> Completion, s: Round)
    requires RoundInv(g, start, stack, reported, outcome, s)
    requires forall k :: k in stack ==> k in start.all.lists
    requires forall k :: k in reported ==> k in stack
    requires name in stack && name !in reported && |reported| < |stack|
    requires reported' == reported + [name]
    ensures RoundInv(g, start, stack, reported', outcome,
                     Handle(s, |stack|, name, Record(outcome(name)), |reported| + 1))
  {
    var results := Record(outcome(name));
    var r := Handle(s, |stack|, name, results, |reported| + 1);
    DeleteWellFormed(s.all, name);
    if s.failed.None? {
      assert !s.done;
      if Truthy(results.error) {
        assert r.failed == Some(name);
      } else {
        CleanStep(g, start, stack, reported, name, outcome, s);
      }
    }
  }

  /** One more report without an error keeps Clean. */
  lemma CleanStep(g: Graph, start: Round, stack: seq<string>, reported: seq<string>, name: string,
                  outcome: string -> Completion, s: Round)
    requires Clean(g, start, stack, reported, outcome, s) && !s.done
    requires forall k :: k in stack ==> k in start.all.lists
    requires name in stack && name !in reported && !Truthy(Record(outcome(name)).error)
    ensures Clean(g, start, stack, reported + [name], outcome,
                  Handle(s, |stack|, name, Record(outcome(name)), |reported| + 1))
  {
    SoundStep(g, start, stack, reported, name, outcome, s);
    BookedStep(start, stack, reported, name, outcome, s);
  }

  lemma SoundStep(g: Graph, start: Round, stack: seq<string>, reported: seq<string>, name: string,
                  outcome: string -> Completion, s: Round)
    requires Clean(g, start, stack, reported, outcome, s) && !s.done
    requires forall k :: k in stack ==> k in start.all.lists
    requires name in stack && name !in reported && !Truthy(Record(outcome(name)).error)
    ensures Sound(g, start, stack, Handle(s, |stack|, name, Record(outcome(name)), |reported| + 1))
  {
    var results := Record(outcome(name));
    var index := |reported| + 1;
    HandleSafe(g, s, |stack|, name, results, index);
    HandleTracked(s, stack, name, results, index);
    if Closure(start.all) {
      HandleClosure(s, |stack|, name, results, index);
    }
  }

  lemma BookedStep(start: Round, stack: seq<string>, reported: seq<string>, name: string,
                   outcome: string -> Completion, s: Round)
    requires Booked(start, stack, reported, outcome, s) && !s.done
    requires name in stack && name !in reported && !Truthy(Record(outcome(name)).error)
    ensures Booked(start, stack, reported + [name], outcome,
                   Handle(s, |stack|, name, Record(outcome(name)), |reported| + 1))
  {
    var results := Record(outcome(name));
    var r := Handle(s, |stack|, name, results, |reported| + 1);
    HandleShape(s, |stack|, name, results, |reported| + 1);
    BookedNext(start, stack, reported, name, outcome, s, r);
  }

  /** The same, for any round `r` with the fields a handled success leaves. */
  lemma BookedNext(start: Round, stack: seq<string>, reported: seq<string>, name: string,
                   outcome: string -> Completion, s: Round, r: Round)
    requires Booked(start, stack, reported, outcome, s) && !s.done
    requires name in stack && name !in reported && !Truthy(Record(outcome(name)).error)
    requires r.resolved == s.resolved[name := Record(outcome(name))]
    requires r.all.lists.Keys == s.all.lists.Keys - {name}
    requires r.done == (|reported| + 1 == |stack|)
    requires forall k :: k in r.all.lists ==> k in s.all.lists && r.all.lists[k] == RemoveFirst(s.all.lists[k], name)
    ensures Booked(start, stack, reported + [name], outcome, r)
  {
    RecordsStep(start.resolved, s.resolved, reported, name, outcome);
    KeysStep(start.all.lists, s.all.lists, r.all.lists, reported, name);
    CrossedStep(start.all.lists, s.all.lists, r.all.lists, reported, name);
    forall k | k in reported + [name] ensures !Truthy(Record(outcome(k)).error) {
      if k != name {
        assert k in reported;
      }
    }
  }

  /** What a handled success leaves of the round, field by field. */
  lemma HandleShape(s: Round, size: nat, name: string, results: Results, index: nat)
    requires !s.done && !Truthy(results.error)
    ensures var r := Handle(s, size, name, results, index);
      && r.resolved == s.resolved[name := results]
      && r.all.lists.Keys == s.all.lists.Keys - {name}
      && r.done == (index == size)
      && r.failed == s.failed
      && forall k :: k in r.all.lists ==> k in s.all.lists && r.all.lists[k] == RemoveFirst(s.all.lists[k], name)
  {
    HandleSuccess(s, size, name, results, index);
    PruneDeleted(s.all.lists, name);
  }

  /** The keys of `all` after one more report. */
  lemma KeysStep(start: map<string, seq<string>>, lists: map<string, seq<string>>, lists': map<string, seq<string>>,
                 reported: seq<string>, name: string)
    requires forall k :: k in lists <==> k in start && k !in reported
    requires lists'.Keys == lists.Keys - {name}
    ensures forall k :: k in lists' <==> k in start && k !in reported + [name]
  {
  }

  /** The lists after one more report without an error. */
  lemma CrossedStep(start: map<string, seq<string>>, lists: map<string, seq<string>>, lists': map<string, seq<string>>,
                    reported: seq<string>, name: string)
    requires forall k :: k in lists ==> k in start && lists[k] == RemoveAllOf(start[k], reported)
    requires forall k :: k in lists' ==> k in lists && lists'[k] == RemoveFirst(lists[k], name)
    ensures forall k :: k in lists' ==> k in start && lists'[k] == RemoveAllOf(start[k], reported + [name])
  {
    assert (reported + [name])[..|reported|] == reported;
  }

  /** The records after one more report without an error. */
  lemma RecordsStep(start: map<string, Results>, resolved: map<string, Results>, reported: seq<string>,
                    name: string, outcome: string -> Completion)
    requires forall k :: k in reported ==> k in resolved && resolved[k] == Record(outcome(k))
    requires forall k :: k in resolved && k !in reported ==> k in start && resolved[k] == start[k]
    ensures forall k :: k in reported + [name] ==>
      k in resolved[name := Record(outcome(name))] && resolved[name := Record(outcome(name))][k] == Record(outcome(k))
    ensures forall k :: k in resolved[name := Record(outcome(name))] && k !in reported + [name] ==>
      k in start && resolved[name := Record(outcome(name))][k] == start[k]
  {
    var rep := reported + [name];
    var r := resolved[name := Record(outcome(name))];
    forall k | k in rep ensures k in r && r[k] == Record(outcome(k)) {
      if k != name {
        assert k in reported;
      }
    }
  }
}
