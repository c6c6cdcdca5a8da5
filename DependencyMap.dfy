/** buildMap (index.js:35-62): reads every task's parameter list into a
    dependency map, rejects names that are neither tasks nor the callback
    name, and runs the cycle check from every task. The task object is given
    as its entries in `Object.keys` order; the pluggable enumerator
    (index.js:19-25, 36) is always the default one here. */
module DependencyMap {
  import opened Common
  import opened Arguments
  import opened Graph
  import opened Cycles

  /** How a task's function is read into its parameter names: always
      getArguments (Arguments.GetArguments). It is passed in, so that nothing
      here depends on how the names are read off the source text. */
  type Parser = Callable -> Result<seq<string>>

  /** The parser throws only getArguments' own two errors. */
  ghost predicate ParserErrors(parse: Parser)
  {
    forall f :: parse(f).Err? ==> parse(f).error == NotAFunction || parse(f).error == NoArgumentList
  }

  /** One own property of the task object. */
  datatype Task = Task(name: string, func: Callable)

  /** The built map: its keys in insertion order, and each key's dependencies.
      The stored function is not kept: it is only ever applied, which lies
      outside this model. */
  datatype DependencyMap = DependencyMap(order: seq<string>, deps: Graph)

  /** The property names, in enumeration order. */
  function TaskNames(tasks: seq<Task>): (r: seq<string>)
    ensures |r| == |tasks| && forall i :: 0 <= i < |tasks| ==> r[i] == tasks[i].name
  {
    if tasks == [] then [] else TaskNames(tasks[..|tasks| - 1]) + [tasks[|tasks| - 1].name]
  }

  /** Every task's parameter list can be read. */
  predicate AllParse(tasks: seq<Task>, parse: Parser)
  {
    forall i :: 0 <= i < |tasks| ==> parse(tasks[i].func).Ok?
  }

  /** The position of the first task whose parameter list cannot be read. */
  function FirstParseFailure(tasks: seq<Task>, parse: Parser): (i: nat)
    requires !AllParse(tasks, parse)
    ensures i < |tasks| && parse(tasks[i].func).Err?
    ensures forall j :: 0 <= j < i ==> parse(tasks[j].func).Ok?
    decreases |tasks|
  {
    FirstParseFailureFrom(tasks, parse, 0)
  }

  function FirstParseFailureFrom(tasks: seq<Task>, parse: Parser, i: nat): (k: nat)
    requires i <= |tasks| && exists j :: i <= j < |tasks| && parse(tasks[j].func).Err?
    ensures i <= k < |tasks| && parse(tasks[k].func).Err?
    ensures forall j :: i <= j < k ==> parse(tasks[j].func).Ok?
    decreases |tasks| - i
  {
    if parse(tasks[i].func).Err? then i else FirstParseFailureFrom(tasks, parse, i + 1)
  }

  /** `map[name] = { func, dependencies }` for every task in turn. */
  function TaskGraph(tasks: seq<Task>, parse: Parser): (g: Graph)
    requires AllParse(tasks, parse)
    ensures forall x :: x in g <==> x in TaskNames(tasks)
  {
    if tasks == [] then map[]
    else
      var last := tasks[|tasks| - 1];
      TaskGraph(tasks[..|tasks| - 1], parse)[last.name := parse(last.func).value]
  }

  /** `xs.forEach(x => seen[x] = true)` on an object used as an ordered set:
      the names of `xs` not yet present are added in order of first
      appearance. */
  function AddNew(seen: seq<string>, xs: seq<string>): (r: seq<string>)
    ensures |seen| <= |r| && r[..|seen|] == seen
    ensures Distinct(seen) ==> Distinct(r)
    ensures forall x :: x in r <==> x in seen || x in xs
    decreases |xs|
  {
    if xs == [] then seen
    else AddNew(if xs[0] in seen then seen else seen + [xs[0]], xs[1..])
  }

  /** What `AddNew` appends are names of `xs` not yet in `seen`. */
  lemma {:induction false} AddNewFresh(seen: seq<string>, xs: seq<string>, i: int)
    requires |seen| <= i < |AddNew(seen, xs)|
    ensures AddNew(seen, xs)[i] !in seen && AddNew(seen, xs)[i] in xs
    decreases |xs|
  {
    var x := xs[0];
    var seen' := if x in seen then seen else seen + [x];
    if i < |seen'| {
      AddNewKeeps(seen', xs[1..], i);
    } else {
      AddNewFresh(seen', xs[1..], i);
    }
  }

  /** What `AddNew` appends comes in the order in which it first appears in
      `xs`. */
  lemma {:induction false} AddNewOrder(seen: seq<string>, xs: seq<string>, i: int, j: int)
    requires |seen| <= i < j < |AddNew(seen, xs)|
    ensures IndexOf(xs, AddNew(seen, xs)[i]) < IndexOf(xs, AddNew(seen, xs)[j])
    decreases |xs|
  {
    var x, rest := xs[0], xs[1..];
    var seen' := if x in seen then seen else seen + [x];
    var r := AddNew(seen', rest);
    AddNewFresh(seen', rest, j);
    IndexOfCons(xs, r[j]);
    if i >= |seen'| {
      AddNewFresh(seen', rest, i);
      IndexOfCons(xs, r[i]);
      AddNewOrder(seen', rest, i, j);
    } else {
      AddNewKeeps(seen', rest, i);
    }
  }

  /** `AddNew` keeps what is already there in place. */
  lemma AddNewKeeps(seen: seq<string>, xs: seq<string>, i: int)
    requires 0 <= i < |seen|
    ensures AddNew(seen, xs)[i] == seen[i]
  {
    assert AddNew(seen, xs)[..|seen|][i] == AddNew(seen, xs)[i];
  }

  /** The first position of `y` in `xs` past its head. */
  lemma IndexOfCons(xs: seq<string>, y: string)
    requires |xs| > 0 && y != xs[0] && y in xs
    ensures y in xs[1..] && IndexOf(xs, y) == 1 + IndexOf(xs[1..], y)
  {
    assert xs == [xs[0]] + xs[1..];
    IndexOfAppend([xs[0]], xs[1..], y);
  }

  /** Adding two lists in turn is adding their concatenation. */
  lemma {:induction false} AddNewConcat(seen: seq<string>, a: seq<string>, b: seq<string>)
    ensures AddNew(AddNew(seen, a), b) == AddNew(seen, a + b)
    decreases |a|
  {
    if a == [] {
      assert a + b == b;
    } else {
      assert (a + b)[0] == a[0] && (a + b)[1..] == a[1..] + b;
      AddNewConcat(if a[0] in seen then seen else seen + [a[0]], a[1..], b);
    }
  }

  /** Every task's parameter names, one task after another. */
  ghost function AllMentioned(tasks: seq<Task>, parse: Parser): seq<string>
    requires AllParse(tasks, parse)
  {
    if tasks == [] then []
    else AllMentioned(tasks[..|tasks| - 1], parse) + parse(tasks[|tasks| - 1].func).value
  }

  /** The keys of `uniqueArguments` are the parameter names of all tasks
      with repeats dropped, in order of first mention. */
  lemma {:induction false} MentionsOrder(tasks: seq<Task>, parse: Parser)
    requires AllParse(tasks, parse)
    ensures Mentions(tasks, parse) == AddNew([], AllMentioned(tasks, parse))
    ensures forall i, j :: 0 <= i < j < |Mentions(tasks, parse)| ==>
      IndexOf(AllMentioned(tasks, parse), Mentions(tasks, parse)[i])
        < IndexOf(AllMentioned(tasks, parse), Mentions(tasks, parse)[j])
    decreases |tasks|
  {
    if tasks != [] {
      var init := tasks[..|tasks| - 1];
      assert AllParse(init, parse) by {
        forall i | 0 <= i < |init| ensures parse(init[i].func).Ok? { assert init[i] == tasks[i]; }
      }
      MentionsOrder(init, parse);
      AddNewConcat([], AllMentioned(init, parse), parse(tasks[|tasks| - 1].func).value);
    }
    forall i, j | 0 <= i < j < |Mentions(tasks, parse)|
      ensures IndexOf(AllMentioned(tasks, parse), Mentions(tasks, parse)[i])
        < IndexOf(AllMentioned(tasks, parse), Mentions(tasks, parse)[j])
    {
      AddNewOrder([], AllMentioned(tasks, parse), i, j);
    }
  }

  /** The keys of `uniqueArguments`: every dependency name of the tasks, in
      order of first mention. */
  function Mentions(tasks: seq<Task>, parse: Parser): (r: seq<string>)
    requires AllParse(tasks, parse)
    ensures Distinct(r)
    ensures forall x :: x in r <==> exists i :: 0 <= i < |tasks| && x in parse(tasks[i].func).value
  {
    if tasks == [] then []
    else
      var init := tasks[..|tasks| - 1];
      assert forall i :: 0 <= i < |init| ==> init[i] == tasks[i];
      AddNew(Mentions(init, parse), parse(tasks[|tasks| - 1].func).value)
  }

  /** A dependency name buildMap rejects: not a task, and not the callback
      name (the other callback spellings are not exempt). */
  predicate Unknown(g: Graph, x: string)
  {
    x != Callback && x !in g
  }

  /** Object keys are distinct. */
  predicate DistinctNames(tasks: seq<Task>)
  {
    forall i, j :: 0 <= i < j < |tasks| ==> tasks[i].name != tasks[j].name
  }

  /** buildMap. The first task whose parameter list cannot be read makes it
      throw that error. Otherwise the map holds every task's parameter names;
      the first mentioned unknown name is reported; and with no unknown name
      the result is the map exactly when it has no cycle, the reported cycle
      being the stack of the first key, in key order, whose walk revisits a
      name on its stack. */
  method BuildMap(tasks: seq<Task>, parse: Parser) returns (r: Result<DependencyMap>)
    requires DistinctNames(tasks) && ParserErrors(parse)
    ensures !AllParse(tasks, parse) ==> r == Err(parse(tasks[FirstParseFailure(tasks, parse)].func).error)
    ensures AllParse(tasks, parse) ==> r.Ok? == (Closed(TaskGraph(tasks, parse)) && Acyclic(TaskGraph(tasks, parse)))
    ensures r.Ok? ==> AllParse(tasks, parse) && r.value == DependencyMap(TaskNames(tasks), TaskGraph(tasks, parse))
    ensures AllParse(tasks, parse) && !Closed(TaskGraph(tasks, parse)) ==> r.Err? && r.error.NotFound?
    ensures AllParse(tasks, parse) && Closed(TaskGraph(tasks, parse)) && !Acyclic(TaskGraph(tasks, parse)) ==>
      r.Err? && r.error.CircularReference?
    ensures r.Err? && r.error.NotFound? ==>
      && AllParse(tasks, parse)
      && FirstUnknown(TaskGraph(tasks, parse), Mentions(tasks, parse), r.error.name)
    ensures r.Err? && r.error.CircularReference? ==>
      && AllParse(tasks, parse) && Closed(TaskGraph(tasks, parse))
      && FirstCycle(TaskGraph(tasks, parse), TaskNames(tasks), r.error.path)
  {
    var parsed := ParseTasks(tasks, parse);
    if parsed.Err? {
      return Err(parsed.error);
    }
    var (deps, unique) := parsed.value;
    ClosedIffKnown(tasks, parse);
    var known := CheckKnown(deps, unique);
    if known.Fail? {
      return Err(known.error);
    }
    var names := TaskNames(tasks);
    var acyclic := CheckCycles(deps, names);
    if acyclic.Fail? {
      return Err(acyclic.error);
    }
    return Ok(DependencyMap(names, deps));
  }

  /** The enumeration of index.js:41-47: each task's parameter list is read
      into `map`, and its names into `uniqueArguments`; the first list that
      cannot be read stops it. */
  method ParseTasks(tasks: seq<Task>, parse: Parser) returns (r: Result<(Graph, seq<string>)>)
    ensures r.Ok? <==> AllParse(tasks, parse)
    ensures r.Ok? ==> r.value == (TaskGraph(tasks, parse), Mentions(tasks, parse))
    ensures r.Err? ==> r.error == parse(tasks[FirstParseFailure(tasks, parse)].func).error
  {
    var deps: Graph := map[];
    var unique: seq<string> := [];
    var i := 0;
    while i < |tasks|
      invariant 0 <= i <= |tasks|
      invariant AllParse(tasks[..i], parse)
      invariant deps == TaskGraph(tasks[..i], parse) && unique == Mentions(tasks[..i], parse)
    {
      assert tasks[..i + 1][..i] == tasks[..i];
      var parsed := parse(tasks[i].func);
      if parsed.Err? {
        FirstFailureAt(tasks, parse, i);
        return Err(parsed.error);
      }
      deps := deps[tasks[i].name := parsed.value];
      unique := RecordNames(unique, parsed.value);
      i := i + 1;
    }
    assert tasks[..|tasks|] == tasks;
    return Ok((deps, unique));
  }

  /** `dependencies.forEach(argName => uniqueArguments[argName] = true)`. */
  method RecordNames(seen: seq<string>, xs: seq<string>) returns (r: seq<string>)
    ensures r == AddNew(seen, xs)
  {
    r := seen;
    var k := 0;
    while k < |xs|
      invariant 0 <= k <= |xs|
      invariant AddNew(r, xs[k..]) == AddNew(seen, xs)
    {
      assert xs[k..][0] == xs[k] && xs[k..][1..] == xs[k + 1..];
      if xs[k] !in r {
        r := r + [xs[k]];
      }
      k := k + 1;
    }
  }

  /** `x` is the first of `mentioned` that is unknown. */
  ghost predicate FirstUnknown(g: Graph, mentioned: seq<string>, x: string)
  {
    && x in mentioned && Unknown(g, x)
    && forall l :: 0 <= l < IndexOf(mentioned, x) ==> !Unknown(g, mentioned[l])
  }

  /** `path` is what the walk of the first key in `names` whose walk
      revisits a name on its stack reports; the revisited name need not be
      that key. */
  ghost predicate FirstCycle(g: Graph, names: seq<string>, path: seq<string>)
  {
    exists j :: 0 <= j < |names| && Revisits(g, [], names[j]) && Reported(g, [], names[j], path)
      && forall l :: 0 <= l < j ==> !Revisits(g, [], names[l])
  }

  /** The check of index.js:50-54: each mentioned name in turn must be the
      callback name or a task. */
  method CheckKnown(g: Graph, mentioned: seq<string>) returns (r: Outcome)
    ensures r.Pass? <==> forall l :: 0 <= l < |mentioned| ==> !Unknown(g, mentioned[l])
    ensures r.Fail? ==> r.error.NotFound? && FirstUnknown(g, mentioned, r.error.name)
  {
    var j := 0;
    while j < |mentioned|
      invariant 0 <= j <= |mentioned|
      invariant forall l :: 0 <= l < j ==> !Unknown(g, mentioned[l])
    {
      if mentioned[j] != Callback && mentioned[j] !in g {
        var k := IndexOf(mentioned, mentioned[j]);
        assert k == j by {
          assert mentioned[k] == mentioned[j];
        }
        return Fail(NotFound(mentioned[j]));
      }
      j := j + 1;
    }
    return Pass;
  }

  /** The check of index.js:57-59: the walk from every key, in key order. */
  method CheckCycles(g: Graph, names: seq<string>) returns (r: Outcome)
    requires Closed(g)
    requires forall x :: x in g <==> x in names
    ensures r.Pass? <==> Acyclic(g)
    ensures r.Fail? ==> r.error.CircularReference? && FirstCycle(g, names, r.error.path)
  {
    var j := 0;
    while j < |names|
      invariant 0 <= j <= |names|
      invariant forall l :: 0 <= l < j ==> !Revisits(g, [], names[l])
    {
      var outcome, stack := CheckDependencies(g, names[j], []);
      if outcome.Fail? {
        NoCycleFromEveryKey(g, names);
        return outcome;
      }
      j := j + 1;
    }
    NoCycleFromEveryKey(g, names);
    return Pass;
  }

  /** The walks from every key find nothing exactly when the graph is acyclic. */
  lemma NoCycleFromEveryKey(g: Graph, names: seq<string>)
    requires forall x :: x in g <==> x in names
    ensures Acyclic(g) <==> forall l :: 0 <= l < |names| ==> !Revisits(g, [], names[l])
  {
    AcyclicIffNoRevisit(g);
    if forall l :: 0 <= l < |names| ==> !Revisits(g, [], names[l]) {
      forall x | IsNode(g, x) ensures !Revisits(g, [], x) {
        var l :| 0 <= l < |names| && names[l] == x;
      }
    }
  }

  /** The map is closed exactly when no mentioned name is unknown. */
  lemma ClosedIffKnown(tasks: seq<Task>, parse: Parser)
    requires AllParse(tasks, parse) && DistinctNames(tasks)
    ensures Closed(TaskGraph(tasks, parse)) <==>
      forall l :: 0 <= l < |Mentions(tasks, parse)| ==> !Unknown(TaskGraph(tasks, parse), Mentions(tasks, parse)[l])
  {
    var g, u := TaskGraph(tasks, parse), Mentions(tasks, parse);
    if forall l :: 0 <= l < |u| ==> !Unknown(g, u[l]) {
      forall k, d | k in g && d in g[k] ensures d == Callback || d in g {
        MentionedIn(tasks, parse, k, d);
        var l :| 0 <= l < |u| && u[l] == d;
      }
    }
    if Closed(g) {
      forall l | 0 <= l < |u| ensures !Unknown(g, u[l]) {
        var i :| 0 <= i < |tasks| && u[l] in parse(tasks[i].func).value;
        LastWins(tasks, parse, i);
      }
    }
  }

  /** A task's entry in the map is its own parameter list. */
  lemma {:induction false} LastWins(tasks: seq<Task>, parse: Parser, i: int)
    requires AllParse(tasks, parse) && DistinctNames(tasks) && 0 <= i < |tasks|
    ensures tasks[i].name in TaskGraph(tasks, parse)
    ensures TaskGraph(tasks, parse)[tasks[i].name] == parse(tasks[i].func).value
  {
    assert TaskNames(tasks)[i] == tasks[i].name;
    var n := |tasks| - 1;
    if i < n {
      var init := tasks[..n];
      assert init[i] == tasks[i];
      assert AllParse(init, parse) by {
        forall j | 0 <= j < |init| ensures parse(init[j].func).Ok? { assert init[j] == tasks[j]; }
      }
      assert DistinctNames(init) by {
        forall a, b | 0 <= a < b < |init| ensures init[a].name != init[b].name {
          assert init[a] == tasks[a] && init[b] == tasks[b];
        }
      }
      LastWins(init, parse, i);
      assert tasks[n].name != tasks[i].name;
    }
  }

  lemma FirstFailureAt(tasks: seq<Task>, parse: Parser, i: int)
    requires 0 <= i < |tasks| && AllParse(tasks[..i], parse) && parse(tasks[i].func).Err?
    ensures !AllParse(tasks, parse) && FirstParseFailure(tasks, parse) == i
  {
    forall j | 0 <= j < i ensures parse(tasks[j].func).Ok? {
      assert tasks[..i][j] == tasks[j];
    }
  }

  /** A dependency of a task is mentioned. */
  lemma MentionedIn(tasks: seq<Task>, parse: Parser, k: string, d: string)
    requires AllParse(tasks, parse) && DistinctNames(tasks)
    requires k in TaskGraph(tasks, parse) && d in TaskGraph(tasks, parse)[k]
    ensures d in Mentions(tasks, parse)
  {
    var i :| 0 <= i < |tasks| && TaskNames(tasks)[i] == k;
    LastWins(tasks, parse, i);
  }
}
