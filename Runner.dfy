/** runner (index.js:208-247): reads the terminal function's parameters,
    builds and checks the map, collects what the terminal function needs,
    then runs rounds until every collected task has completed, and finally
    applies the terminal function to the recorded values of its parameters.
    The tasks' own code is not modelled: the order in which a round's tasks
    report and what each reports are parameters. */
module Runner {
  import opened Common
  import opened Arguments
  import opened Graph
  import opened Reducer
  import opened DependencyMap
  import opened Scheduler

  /** Why the promise runner returns stays pending forever. */
  datatype Hang =
    | EmptyRound               // runStack on an empty stack never resolves (index.js:179)
    | TaskErrored(name: string) // the handler throws on an unbound name (index.js:160)
    | TerminalArgumentMissing  // `resolved[name].value` throws in a `then` callback (index.js:240)

  /** How a call of runner ends. */
  datatype RunResult =
    | Completed(args: seq<Value>) // the terminal function is applied to `args`
    | Threw(error: Error)         // runner throws before returning its promise
    | Rejection(error: Error)     // the returned promise is rejected
    | NeverSettles(why: Hang)

  /** The completion order of a round is some order of its stack. */
  ghost predicate Reorders(order: seq<string> -> seq<string>)
  {
    forall s :: Distinct(s) ==>
      |order(s)| == |s| && Distinct(order(s)) && forall k :: k in order(s) <==> k in s
  }

  /** No task declares the same parameter name twice. */
  predicate DistinctLists(g: Graph)
  {
    forall k :: k in g ==> Distinct(g[k])
  }

  /** The map can be built: every parameter list reads, every name is known
      and there is no cycle. */
  ghost predicate Builds(tasks: seq<Task>)
  {
    && AllParse(tasks, GetArguments)
    && Closed(TaskGraph(tasks, GetArguments))
    && Acyclic(TaskGraph(tasks, GetArguments))
  }

  /** `lastArguments.map((name) => resolved[name].value)` (index.js:240):
      `None` when some name has no record, which throws a TypeError. */
  function TerminalArguments(names: seq<string>, resolved: map<string, Results>): (r: Option<seq<Value>>)
    ensures r.Some? <==> forall n :: n in names ==> n in resolved
    ensures r.Some? ==> |r.value| == |names| && forall i :: 0 <= i < |names| ==> r.value[i] == resolved[names[i]].value
  {
    if |names| == 0 then Some([])
    else
      var rest := TerminalArguments(names[1..], resolved);
      assert forall n :: n in names <==> n == names[0] || n in names[1..];
      if names[0] !in resolved || rest.None? then None
      else Some([resolved[names[0]].value] + rest.value)
  }

  /** The first stack (index.js:218-224): the keys of `all` whose list is
      empty or only the callback name, in key order. */
  method InitialStack(all: Table) returns (stack: seq<string>)
    ensures stack == ReadyKeys(all)
  {
    stack := [];
    var i := 0;
    while i < |all.order|
      invariant 0 <= i <= |all.order|
      invariant stack == ReadyKeys(Table(all.order[..i], all.lists))
    {
      var name := all.order[i];
      PrefixSnoc(all.order, i);
      if name in all.lists {
        var deps := all.lists[name];
        if |deps| == 0 || (|deps| == 1 && deps[0] == Callback) {
          assert Ready(deps) by {
            if |deps| == 1 {
              assert deps == [deps[0]];
            }
          }
          stack := stack + [name];
        }
      }
      i := i + 1;
    }
    assert all.order[..|all.order|] == all.order;
  }

  /** runner(obj, lastFunction), with the task object given as its entries.
      It throws when a parameter list cannot be read or the map cannot be
      built; otherwise it goes on as Execute says. */
  method Run(tasks: seq<Task>, last: Callable, order: seq<string> -> seq<string>, outcome: string -> Completion)
    returns (r: RunResult)
    requires DistinctNames(tasks) && Reorders(order)
    requires AllParse(tasks, GetArguments) ==> Consistent(TaskGraph(tasks, GetArguments), outcome)
    ensures GetArguments(last).Err? ==> r == Threw(GetArguments(last).error)
    ensures GetArguments(last).Ok? ==> (r.Threw? <==> !Builds(tasks))
    ensures GetArguments(last).Ok? && !AllParse(tasks, GetArguments) ==>
      r == Threw(GetArguments(tasks[FirstParseFailure(tasks, GetArguments)].func).error)
    ensures GetArguments(last).Ok? && AllParse(tasks, GetArguments) && !Closed(TaskGraph(tasks, GetArguments)) ==>
      && r.Threw? && r.error.NotFound?
      && FirstUnknown(TaskGraph(tasks, GetArguments), Mentions(tasks, GetArguments), r.error.name)
    ensures GetArguments(last).Ok? && AllParse(tasks, GetArguments) && Closed(TaskGraph(tasks, GetArguments))
            && !Acyclic(TaskGraph(tasks, GetArguments)) ==>
      && r.Threw? && r.error.CircularReference?
      && FirstCycle(TaskGraph(tasks, GetArguments), TaskNames(tasks), r.error.path)
    ensures GetArguments(last).Ok? && Builds(tasks) ==>
      Executes(TaskGraph(tasks, GetArguments), GetArguments(last).value, outcome, r)
  {
    var lastArguments := GetArguments(last);
    if lastArguments.Err? {
      return Threw(lastArguments.error);
    }
    GetArgumentsErrors();
    var built := BuildMap(tasks, GetArguments);
    if built.Err? {
      return Threw(built.error);
    }
    r := Execute(built.value.deps, lastArguments.value, order, outcome);
  }

  /** How the promise of runner ends once the map is built, for the terminal
      parameters `roots`. It is rejected exactly when some root is neither a
      task nor the callback name, naming the first one. When it completes,
      the terminal function receives, for each parameter, the value its task
      reported, and no task it needs reported an error. A task's error, which
      only a task without a callback can report, leaves it pending; so does a terminal
      function that takes the callback name, and, when no parameter list
      repeats a name, an empty round happens only when the terminal function
      needs no task. When every task reports without an error, no list
      repeats a name and the terminal function takes at least one task and
      not the callback name, it completes. */
  ghost predicate Executes(g: Graph, roots: seq<string>, outcome: string -> Completion, r: RunResult)
  {
    && !r.Threw?
    && (r.Rejection? <==> exists x :: x in roots && !Found(g, x))
    && (r.Rejection? ==> r.error.MissingDependency? && FirstMissing(g, roots, r.error.name))
    && (r.Completed? ==>
          |r.args| == |roots| && forall i :: 0 <= i < |roots| ==> r.args[i] == Record(outcome(roots[i])).value)
    && (r.Completed? ==> Callback !in roots && forall k :: k in ReachSet(g, roots) ==> !Truthy(Record(outcome(k)).error))
    && (r.NeverSettles? && r.why.TaskErrored? ==>
          && Truthy(Record(outcome(r.why.name)).error)
          && r.why.name in g && outcome(r.why.name).Rejected? && !HasCallback(g[r.why.name]))
    && (r == NeverSettles(TerminalArgumentMissing) ==> Callback in roots)
    && (r == NeverSettles(EmptyRound) && DistinctLists(g) ==> forall x :: x in roots ==> x == Callback)
    && (Hopeful(g, roots, outcome) && (forall x :: x in roots ==> Found(g, x)) ==> r.Completed?)
  }

  /** The conditions under which a run completes. */
  ghost predicate Hopeful(g: Graph, roots: seq<string>, outcome: string -> Completion)
  {
    && DistinctLists(g) && Callback !in roots && |roots| > 0
    && forall k :: !Truthy(Record(outcome(k)).error)
  }

  /** The promise executor of runner (index.js:213-246) over a built map. */
  method Execute(g: Graph, roots: seq<string>, order: seq<string> -> seq<string>, outcome: string -> Completion)
    returns (r: RunResult)
    requires Closed(g) && Acyclic(g) && Reorders(order) && Consistent(g, outcome)
    ensures Executes(g, roots, outcome, r)
  {
    var collected := BuildDependencies(g, roots, Table([], map[]));
    if collected.Err? {
      return Rejection(collected.error);
    }
    var hang, resolved := Rounds(g, roots, collected.value, order, outcome);
    if hang.Some? {
      return NeverSettles(hang.value);
    }
    var args := TerminalArguments(roots, resolved);
    if args.None? {
      TerminalMissing(g, roots, resolved);
      return NeverSettles(TerminalArgumentMissing);
    }
    return Completed(args.value);
  }

  /** What holds between rounds (index.js:226-235). */
  ghost predicate Between(g: Graph, roots: seq<string>, outcome: string -> Completion,
                          all: Table, resolved: map<string, Results>, stack: seq<string>)
  {
    && Safe(g, all, resolved) && Tracked(all.lists, stack, [])
    && (forall k :: k in stack ==> k in all.lists)
    && Callback !in resolved
    && (forall k :: k in resolved ==> resolved[k] == Record(outcome(k)) && !Truthy(resolved[k].error))
    && (forall k :: k in ReachSet(g, roots) ==> k in all.lists || k in resolved)
    && (DistinctLists(g) ==> Closure(all))
  }

  /** The rounds `next(stack)` runs (index.js:226-235), from the object
      buildDependencies built: they stop when `all` is empty, or hang on an
      empty stack or a task's error. */
  method Rounds(g: Graph, roots: seq<string>, all0: Table, order: seq<string> -> seq<string>, outcome: string -> Completion)
    returns (hang: Option<Hang>, resolved: map<string, Results>)
    requires Closed(g) && Acyclic(g) && Reorders(order) && Consistent(g, outcome)
    requires WellFormed(all0) && EntriesOf(all0, g) && all0.lists.Keys == ReachSet(g, roots)
    requires forall x :: x in roots ==> Found(g, x)
    ensures hang.None? ==> forall k :: k in ReachSet(g, roots) ==> k in resolved
    ensures hang.None? ==> Callback !in resolved
    ensures hang.None? ==> forall k :: k in resolved ==> resolved[k] == Record(outcome(k)) && !Truthy(resolved[k].error)
    ensures hang.Some? ==> !hang.value.TerminalArgumentMissing?
    ensures hang.Some? && hang.value.TaskErrored? ==>
      && Truthy(Record(outcome(hang.value.name)).error)
      && hang.value.name in g && outcome(hang.value.name).Rejected? && !HasCallback(g[hang.value.name])
    ensures hang == Some(EmptyRound) && DistinctLists(g) ==> forall x :: x in roots ==> x == Callback
    ensures Hopeful(g, roots, outcome) ==> hang.None?
  {
    var all := all0;
    resolved := map[];
    var stack := InitialStack(all);
    InitialBetween(g, roots, outcome, all);
    while true
      invariant Between(g, roots, outcome, all, resolved, stack)
      invariant DistinctLists(g) && stack == [] ==> forall x :: x in roots ==> x == Callback
      invariant Hopeful(g, roots, outcome) ==> stack != []
      decreases all.lists.Keys
    {
      var failed, all', resolved', nextStack, settled := RunStack(g, stack, all, resolved, order(stack), outcome);
      if failed.Some? {
        return Some(TaskErrored(failed.value)), resolved';
      }
      if !settled {
        return Some(EmptyRound), resolved;
      }
      BetweenStep(g, roots, outcome, all, resolved, stack, all', resolved', nextStack);
      all := all';
      resolved := resolved';
      if all.lists == map[] {
        return None, resolved;
      }
      stack := nextStack;
    }
  }

  /** The first stack starts the rounds. */
  lemma InitialBetween(g: Graph, roots: seq<string>, outcome: string -> Completion, all: Table)
    requires Closed(g) && Acyclic(g)
    requires WellFormed(all) && EntriesOf(all, g) && all.lists.Keys == ReachSet(g, roots)
    requires forall x :: x in roots ==> Found(g, x)
    ensures Between(g, roots, outcome, all, map[], ReadyKeys(all))
    ensures DistinctLists(g) && ReadyKeys(all) == [] ==> forall x :: x in roots ==> x == Callback
    ensures Hopeful(g, roots, outcome) ==> ReadyKeys(all) != []
  {
    InitiallySafe(g, all);
    InitiallyTracked(all);
    if DistinctLists(g) {
      InitialClosure(g, roots, all);
      RoundProgress(g, all, [], ReadyKeys(all));
      if all.lists == map[] {
        EmptyReach(g, roots);
      }
    }
    if Hopeful(g, roots, outcome) {
      HopefulNonEmpty(g, roots, all);
    }
  }

  /** Every collected task is still waiting or has a record. */
  lemma StillCovered(reach: set<string>, waiting: set<string>, waiting': set<string>,
                     recorded: set<string>, recorded': set<string>, stack: seq<string>)
    requires forall k :: k in reach ==> k in waiting || k in recorded
    requires forall k :: k in waiting' <==> k in waiting && k !in stack
    requires forall k :: k in stack ==> k in recorded'
    requires recorded <= recorded'
    ensures forall k :: k in reach ==> k in waiting' || k in recorded'
  {
  }

  /** A terminal function that takes a task starts with a task to collect. */
  lemma HopefulNonEmpty(g: Graph, roots: seq<string>, all: Table)
    requires |roots| > 0 && Callback !in roots && forall x :: x in roots ==> Found(g, x)
    requires all.lists.Keys == ReachSet(g, roots)
    ensures all.lists != map[]
  {
    var x := roots[0];
    assert x in roots;
    assert IsNode(g, x);
    RootReached(g, roots);
    assert x in all.lists;
  }

  /** A finished round without an error keeps what holds between rounds,
      takes the stack out of `all`, and, when tasks remain and no list
      repeats a name, leaves a non-empty next stack. */
  lemma BetweenStep(g: Graph, roots: seq<string>, outcome: string -> Completion,
                    all: Table, resolved: map<string, Results>, stack: seq<string>,
                    all': Table, resolved': map<string, Results>, nextStack: seq<string>)
    requires Acyclic(g)
    requires Between(g, roots, outcome, all, resolved, stack) && stack != []
    requires Safe(g, all', resolved') && Tracked(all'.lists, stack, nextStack)
    requires forall k :: k in all'.lists <==> k in all.lists && k !in stack
    requires forall k :: k in stack ==> k in resolved' && resolved'[k] == Record(outcome(k))
    requires forall k :: k in stack ==> !Truthy(Record(outcome(k)).error)
    requires forall k :: k in resolved' && k !in stack ==> k in resolved && resolved'[k] == resolved[k]
    requires resolved.Keys <= resolved'.Keys
    requires Closure(all) ==> Closure(all')
    ensures Between(g, roots, outcome, all', resolved', nextStack)
    ensures all'.lists.Keys < all.lists.Keys
    ensures DistinctLists(g) && all'.lists != map[] ==> nextStack != []
  {
    assert stack[0] in all.lists && stack[0] !in all'.lists;
    StillCovered(ReachSet(g, roots), all.lists.Keys, all'.lists.Keys, resolved.Keys, resolved'.Keys, stack);
    NextRound(all'.lists, stack, nextStack);
    if DistinctLists(g) {
      RoundProgress(g, all', stack, nextStack);
    }
  }

  /** getArguments throws only its own two errors. */
  lemma GetArgumentsErrors()
    ensures ParserErrors(GetArguments)
  {
  }

  /** Once the stack of a round has left `all`, the next stack starts the next
      round tracked. */
  lemma NextRound(lists: map<string, seq<string>>, stack: seq<string>, nextStack: seq<string>)
    requires Tracked(lists, stack, nextStack) && forall k :: k in stack ==> k !in lists
    ensures Tracked(lists, nextStack, []) && forall k :: k in nextStack ==> k in lists
  {
  }

  /** Nothing is reached only from roots that are not nodes. */
  lemma EmptyReach(g: Graph, roots: seq<string>)
    requires ReachSet(g, roots) == {}
    requires forall x :: x in roots ==> Found(g, x)
    ensures forall x :: x in roots ==> x == Callback
  {
    RootReached(g, roots);
  }

  /** A root that is a task is reached. */
  lemma RootReached(g: Graph, roots: seq<string>)
    ensures forall x :: x in roots && IsNode(g, x) ==> x in ReachSet(g, roots)
  {
    forall x | x in roots && IsNode(g, x) ensures x in ReachSet(g, roots) {
      assert IsPath(g, [x]);
    }
  }

  /** A terminal parameter without a record is the callback name. */
  lemma TerminalMissing(g: Graph, roots: seq<string>, resolved: map<string, Results>)
    requires forall x :: x in roots ==> Found(g, x)
    requires forall k :: k in ReachSet(g, roots) ==> k in resolved
    requires !(forall n :: n in roots ==> n in resolved)
    ensures Callback in roots
  {
    RootReached(g, roots);
    forall n | n in roots && n != Callback ensures n in resolved { }
  }
}
