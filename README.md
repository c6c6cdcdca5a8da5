# tenor.js core in Dafny

A model of `index.js` of tenor.js. Tenor runs a set of named tasks, each a
JavaScript function whose parameter names are the names of the tasks it
depends on, and then calls a terminal function with the results it needs.

- **getArguments** (`Arguments.dfy`) reads a function's parameter names off
  its source text. It takes the first parenthesised group, splits it at
  commas, removes `/* ... */` comments, trims each piece and drops empty
  pieces.
- **buildMap** (`DependencyMap.dfy`) reads every task into a dependency map.
  It throws on a name that is neither a task nor `callback`, then runs
  **checkDependencies** (`Cycles.dfy`) from every key: a depth-first walk
  with an explicit stack that throws `Found circular reference: a > b > ...`.
  `Graph.dfy` holds the vocabulary of paths, cycles and reachability these
  are stated in.
- **buildDependencies** (`Reducer.dfy`) collects into one object `all` the
  tasks the terminal function needs, directly or not, each with a copy of
  its list.
- **runStack** and the **collector** (`Scheduler.dfy`) run one round.
  - Every task on the current stack is launched. A task with a parameter
    matching `/^(callback|handler|cb|h)$/` reports through the callback it
    receives; any other task reports when its return value settles.
  - The handler processes one completion at a time. It deletes the task from
    `all` and records its `{value, error}` in `resolved`. It then crosses
    the task off every waiting list; a task whose list becomes empty, or
    holds only `callback`, is pushed on the next stack.
  - The round ends when the counter reaches the size of the stack.
- **runner** (`Runner.dfy`) builds the first stack from the ready keys and
  runs rounds until `all` is empty. It then applies the terminal function
  to the recorded values of its parameters.

The model follows the code as written, including where it departs from the
intent one would read into it. These behaviours are modelled and proved as
they are:

- A task that reports an error sets `done` and then throws a ReferenceError,
  because `error` at index.js:160 is unbound. The promise of runStack never
  settles, so a task error leaves the run pending. The model reports this
  as `NeverSettles(TaskErrored(name))`; no rejection is ever produced for a
  task error.
- The callback handed to a task records `error: null` (index.js:115), so a
  callback's error is dropped and its record never holds an error. Only a
  task without a callback parameter can report an error, through a
  rejected promise (`Scheduler.ErrorIsRejection`).
- A rejected promise counts as an error only when its reason is truthy
  (index.js:156). `Value` carries its truthiness for this reason.
- Only the literal name `callback` is exempt from the unknown-name check and
  skipped by the walks (index.js:51, 65, 94). At launch, all four spellings
  `callback`, `handler`, `cb` and `h` receive a callback (index.js:192).
- runStack on an empty stack never resolves, because no report ever reaches
  `index === stack.length`. A terminal function with no task parameter
  therefore hangs (`EmptyRound`).
- A terminal function that takes `callback` reads `resolved.callback.value`
  and throws inside a `then` callback (index.js:240), so it never settles
  either.
- A task that declares the same dependency twice never becomes ready,
  because each completion removes only one occurrence of its name. The
  progress results are therefore stated for distinct parameter lists.
- An unknown terminal parameter makes buildDependencies throw inside the
  promise executor, which rejects the promise runner returns (`Rejection`).

Where the code and the intended design disagree, the model follows the code:

- A task error fails nothing; it hangs the run.
- The cycle message is the stack at the moment of the revisit, without the
  repeated name.
- The callback aliases are exempt only at launch.

The test at test/index.spec.js:53-68 expects `bankAccount` to map to
`['profile']`, although the task declares `(profile, language)`. The code
records the declared list; `DependencyMap.LastWins` states this.

The tasks' own code, the clock and the promise machinery are parameters.
`order` gives the order in which a round's tasks report; it may be any
reordering of the stack. `outcome` gives what each task reports. It must
match how the task reports (`Scheduler.Consistent`): a task with a callback
parameter reports through the callback, since its return value is ignored
(index.js:201-203), and any other task reports through its return value.

## Model

| member | source | states |
|---|---|---|
| Common.IndexOf | index.js:71 | `indexOf`: -1 exactly when the element is absent, otherwise a position holding it with no earlier occurrence |
| Common.RemoveFirst | index.js:168-171 | `indexOf` then `splice(i, 1)`: an absent element leaves the list unchanged; otherwise the list is one shorter and is the original with exactly the first occurrence taken out |
| Common.RemoveFirstCount | index.js:171 | the splice removes exactly one copy of the name (multiset difference) |
| Common.RemoveFirstMembers | index.js:171 | the splice loses no other name and introduces none |
| Common.DistinctRemoveFirst | index.js:171 | on a list without repeats, the splice keeps it without repeats and the name is gone |
| Common.RemoveFirstOrder | index.js:171 | the splice keeps the order of the rest of the list |
| Arguments.ParenGroup | index.js:8-11 | `/\(([^)]*)\)/`: no match exactly when no `(` is followed later by a `)`; a match is the text between the first `(` and the first `)` after it |
| Arguments.Split | index.js:14 | `split(',')`: one more piece than there are commas, no piece contains a comma, and joining the pieces with commas gives back the text |
| Arguments.CommentEnd | index.js:15 | the lazy `.*?\*/` on the text after an opener: a found end is the earliest `*/` with no line break before it; when none is found, every `*/` has a line break before it |
| Arguments.ClosedAfter | index.js:15 | a comment whose body holds no `*/` and no line break ends at the first `*/` after the body |
| Arguments.StripOrder | index.js:15 | `replace(/\/\*.*?\*\//g, '')` keeps what it keeps in order: the result is a subsequence of the text |
| Arguments.KeepPlain | index.js:15 | text in front that starts no `/*` is kept as it is, and the replacement goes on after it; with nothing after it, text without `/*` is unchanged |
| Arguments.CommentFirst | index.js:15 | a complete one-line comment at the front is removed and the replacement goes on after its `*/` |
| Arguments.StripCommentOut | index.js:15 | a complete one-line comment is removed with nothing else: the text in front of it is kept and the text after it is processed on its own |
| Arguments.Trim | index.js:15 | `trim()`: the result is the stretch of the text between a leading and a trailing run of ECMAScript white space or line terminators, and starts and ends with neither |
| Arguments.TrimAfterSpace | index.js:15 | white space in front of trimmed text is all that `trim()` removes |
| Arguments.WhiteSpaceAround | index.js:15 | cutting white-space runs off both ends gives a trimmed text and removes only white space |
| Arguments.Clean | index.js:15 | each piece after comment removal and trimming is trimmed and made only of characters of the piece |
| Arguments.CleanOrder | index.js:15 | a cleaned piece is a subsequence of the piece, and a piece without `/*` is cleaned to its trimmed stretch |
| Arguments.CommentedPiece | index.js:15 | a name between two one-line comments, after any white space, cleans to the bare name; the pieces `/*test*/one/*onethertest*/` and ` /*more tste*/two/*osuothuo*/` of test/index.spec.js:39-40 are instances of it |
| Arguments.StarredComment | index.js:15 | `/*test***/` of test/index.spec.js:43-44 cleans to the empty name |
| Arguments.Names | index.js:14-16 | `filter(arg => arg !== '')`: the names are exactly the non-empty cleaned pieces, never more names than pieces |
| Arguments.NamesAppend | index.js:14-16 | `map` then `filter` works piece by piece: the names of joined piece lists are the joined names, so order and repeats are kept |
| Arguments.NamesOne | index.js:14-16 | one piece gives its cleaned text as its one name, or no name when that is empty |
| Arguments.GetArguments | index.js:3-17 | a value that is not a function throws NotAFunction; a function throws exactly when its text has no parenthesised group; no other error |
| Arguments.GetArgumentsNames | index.js:8-16 | every returned name is non-empty, trimmed and free of commas and `)`, and there is at most one more name than the group has commas |
| Arguments.NamesAvoid | index.js:13-16 | every cleaned name lies inside one comma-free piece of the group, so it contains neither a comma nor `)` |
| Graph.AcyclicIffNoCycle | index.js:64-79 | the dependency graph has no repeating path exactly when no node lies on a cycle |
| Graph.SubGraphAcyclic | index.js:166-177 | removing tasks and crossing names off lists cannot create a cycle |
| Graph.Sink | index.js:172-174 | a finite, closed, acyclic set of lists has a list naming no task |
| Graph.ReachAppend | index.js:93-104 | what a list of roots reaches is the union of what its parts reach |
| Cycles.CheckDependencies | index.js:64-79 | returns normally exactly when no chain from `name` comes back to the stack or to itself, and then the stack is as before (push and pop balance); otherwise the error carries the stack at the revisit: the old stack at the bottom, then a chain of distinct tasks from `name` whose top depends on a name already on the stack, never longer than the number of tasks |
| Cycles.ReportedStep | index.js:74-77 | an error thrown in the walk of a dependency is a valid report for the walk of its parent |
| Cycles.RevisitsStep | index.js:71-77 | from a name not on the stack, a revisit exists exactly when one exists from one of its dependencies with the name pushed |
| Cycles.AcyclicIffNoRevisit | index.js:57-59 | the walk from every task with an empty stack passes exactly when the graph is acyclic |
| DependencyMap.TaskNames | index.js:21 | the property names in enumeration order |
| DependencyMap.FirstParseFailure | index.js:41-42 | the first task whose parameter list cannot be read: it fails and every earlier task reads |
| DependencyMap.TaskGraph | index.js:41-43 | the map has exactly the task names as keys |
| DependencyMap.LastWins | index.js:43 | every task's entry is its own parameter list |
| DependencyMap.AddNew | index.js:44-46 | `uniqueArguments[argName] = true` keeps earlier keys in place, adds no key twice, and holds exactly the old keys and the new names |
| DependencyMap.AddNewFresh | index.js:44-46 | every key added is a name of the list that was not a key before |
| DependencyMap.AddNewOrder | index.js:44-46 | the keys added come in the order of their first appearance in the list |
| DependencyMap.AddNewConcat | index.js:41-47 | adding two lists in turn adds their concatenation |
| DependencyMap.RecordNames | index.js:44-46 | the loop over one task's names adds them as AddNew does |
| DependencyMap.Mentions | index.js:44-46 | `Object.keys(uniqueArguments)`: no repeats, and exactly the names some task mentions |
| DependencyMap.MentionsOrder | index.js:41-50 | the keys of `uniqueArguments` are all tasks' parameter names, one task after another, with repeats dropped, in order of first mention |
| DependencyMap.MentionedIn | index.js:44-46 | every dependency in the map is among the mentioned names |
| DependencyMap.ParseTasks | index.js:41-47 | the parse loop succeeds exactly when every task reads, giving the map and the mentioned names; otherwise it throws the first failure's error |
| DependencyMap.CheckKnown | index.js:50-54 | passes exactly when no mentioned name is unknown; otherwise it reports the first unknown name in key order |
| DependencyMap.ClosedIffKnown | index.js:50-54 | the map is closed (every dependency is a task or `callback`) exactly when no mentioned name is unknown |
| DependencyMap.CheckCycles | index.js:57-59 | passes exactly when the map is acyclic; otherwise it reports the walk of the first key whose walk revisits a name on its stack |
| DependencyMap.NoCycleFromEveryKey | index.js:57-59 | the map is acyclic exactly when no walk from any key revisits |
| DependencyMap.FirstFailureAt | index.js:41-42 | a task that fails after tasks that all read is the first failure |
| DependencyMap.BuildMap | index.js:35-62 | throws the first unreadable task's error; otherwise succeeds exactly when the map is closed and acyclic and returns each task's list in key order; an unknown name is reported before any cycle, naming the first unknown mentioned name; with no unknown name, a cycle is reported, naming the walk of the first key that revisits |
| Reducer.Put | index.js:102 | `dependencies[name] = list`: a new key goes last, an existing key keeps its place, and the key order stays exact |
| Reducer.BuildDependencies | index.js:90-107 | throws exactly when some root is neither `callback` nor a task, naming the first such root; otherwise adds exactly the tasks reachable from the roots, each with its own list, after the keys already there |
| Reducer.Visit | index.js:93-104 | skips `callback`, throws on an unknown name, and otherwise records the task and everything it reaches |
| Reducer.FirstMissingAt | index.js:97-100 | the root that throws is the first one that is not found |
| Reducer.ReachWithin | index.js:93 | what one root reaches is part of what all roots reach |
| Scheduler.LaunchArguments | index.js:191-198 | the argument list has one entry per parameter: the task's own callback for each alias, and the recorded value otherwise; it fails exactly when a non-alias parameter has no record |
| Scheduler.Filter | index.js:218-224 | keeps exactly the elements that pass, without introducing repeats |
| Scheduler.FilterAppend | index.js:218-224 | the filter keeps the order: filtering joined lists gives the joined filtered lists |
| Scheduler.FilterOne | index.js:218-224 | one element is kept exactly when it passes |
| Scheduler.RemoveAllOfCount | index.js:166-171 | crossing a round's names off a list takes away one copy of each of them that is there (multiset difference) |
| Scheduler.RemoveAllOfOrder | index.js:166-171 | crossing names off a list keeps the order of what is left |
| Scheduler.CountStep | index.js:171 | one more splice takes one more copy away |
| Scheduler.CrossedStep | index.js:166-171 | after one more report, each remaining list is its starting list with the reported names crossed off |
| Scheduler.ErrorIsRejection | index.js:113-125 | an error is recorded only for a rejected promise, so only a task without a callback parameter can report one |
| Scheduler.DeleteWellFormed | index.js:151 | deleting a key keeps the key order exact |
| Scheduler.PruneAllCount | index.js:166-171 | every list holding the name loses exactly one copy of it; every other list is unchanged |
| Scheduler.ReleasedMembers | index.js:172-174 | the keys pushed are exactly those whose list held the name and is ready after the splice, each at most once |
| Scheduler.ReleasedDeleted | index.js:151-177 | after the task's own key is deleted, the released keys are those of the remaining keys whose list the completion makes ready, with no repeats |
| Scheduler.ReadyHasInputs | index.js:191-198 | a ready task has a record for every dependency other than `callback`, so launching it reads no missing value: no task runs before its inputs |
| Scheduler.InitiallySafe | index.js:213-216 | the object from buildDependencies, with nothing resolved, satisfies the ledger invariant |
| Scheduler.InitialClosure | index.js:90-107 | the collected object is closed under its own lists |
| Scheduler.InitiallyTracked | index.js:218-224 | the first stack is exactly the ready tasks |
| Scheduler.HandleSafe | index.js:150-177 | a handled success keeps `all` well formed and within the declared lists, and keeps every dependency either still listed or recorded |
| Scheduler.HandleClosure | index.js:164-177 | a handled success keeps `all` closed and its lists free of repeats |
| Scheduler.ClosureStep | index.js:164-177 | the same, on the lists alone |
| Scheduler.HandleTracked | index.js:164-177 | a handled success pushes each newly ready task exactly once, and every ready task stays in the stack or on the next stack |
| Scheduler.TrackedStep | index.js:164-177 | the same, on the lists alone |
| Scheduler.HandleShape | index.js:151-183 | a handled success records the result, removes the key, crosses the name off every remaining list, keeps `failed`, and sets `done` exactly at the last report |
| Scheduler.ReadyKept | index.js:166-177 | a list that was already ready is not touched by a completion |
| Scheduler.ReadyUntouched | index.js:172-173 | a ready list holds no task name |
| Scheduler.OnlyCallback | index.js:172-173 | a list without repeats that holds only `callback` is ready |
| Scheduler.RoundProgress | index.js:179-183 | once the whole stack has completed, an acyclic `all` that still has tasks has pushed one of them on the next stack |
| Scheduler.Prune | index.js:166-177 | the loop over `Object.keys(all)` leaves every list spliced and pushes exactly the released keys in key order |
| Scheduler.CrossOff | index.js:167-175 | the splice of one list, and the push exactly when the name was there and what is left is empty or only `callback` |
| Scheduler.ReadyShape | index.js:173 | the length test of the handler is exactly readiness |
| Scheduler.Scheduler.constructor | index.js:139-143 | a new round has an empty next stack, is not done, has a zero counter and no failure |
| Scheduler.Scheduler.Launch | index.js:186-204 | every task of the stack is applied to its arguments; none reads a missing record |
| Scheduler.Scheduler.Report | index.js:112-127 | a report increments the counter and runs the handler with the new count |
| Scheduler.Scheduler.OnComplete | index.js:144-184 | after `done`, nothing changes; `done` becomes true exactly on an error or on the last report; the new state is what the handler computes |
| Scheduler.Scheduler.RunRound | index.js:144-204 | every task reports once; the round fails exactly when some task reports a truthy error, naming such a task; otherwise every task of the stack is recorded with its own result and has left `all`, every remaining list is its old list with the reported names crossed off in report order, nothing else changes in `resolved`, the ledger still balances, and every newly ready task is on the next stack exactly once |
| Scheduler.RunStack | index.js:138-206 | one runStack call to the end of its round: it settles exactly when the stack is non-empty and no task reports an error (an empty stack gets no report, so `index === stack.length` is never reached), with the same guarantees as RunRound on the returned `all`, `resolved` and next stack; a failing task is a task without a callback parameter whose promise rejected |
| Scheduler.RoundStep | index.js:144-184 | one more report keeps the round invariant |
| Scheduler.CleanStep | index.js:150-183 | one more successful report keeps the invariant of an unfailed round |
| Scheduler.SoundStep | index.js:150-177 | one more successful report keeps `all` safe, tracked and closed |
| Scheduler.BookedStep | index.js:151-183 | one more successful report records its result and removes its key |
| Runner.TerminalArguments | index.js:240 | one value per terminal parameter, each the recorded value; it fails exactly when some parameter has no record |
| Runner.InitialStack | index.js:218-224 | the first stack is the keys whose list is empty or only `callback`, in key order |
| Runner.Rounds | index.js:226-238 | when the rounds finish, every task the terminal function needs is recorded with its own result, none of them an error; a hang comes from an empty stack or a task's truthy error, reported through a rejected promise; with distinct lists, an empty stack only happens when the terminal function needs no task; with no errors, distinct lists and a terminal task parameter, the rounds finish |
| Runner.BetweenStep | index.js:226-235 | a finished round keeps what holds between rounds, strictly shrinks `all`, and leaves a non-empty next stack when tasks remain |
| Runner.InitialBetween | index.js:213-224 | the first stack starts the rounds |
| Runner.NextRound | index.js:233 | the next stack starts the next round tracked |
| Runner.HopefulNonEmpty | index.js:213 | a terminal function with a task parameter starts with a task to collect |
| Runner.RootReached | index.js:93-103 | every root that is a task is collected |
| Runner.EmptyReach | index.js:219-224 | collecting nothing means every root is `callback` |
| Runner.TerminalMissing | index.js:240 | a terminal parameter without a record is `callback` |
| Runner.GetArgumentsErrors | index.js:3-11 | getArguments throws only its own two errors |
| Runner.Execute | index.js:212-246 | the promise is rejected exactly when some terminal parameter is unknown, naming the first one; on completion, the terminal function receives the value each parameter's task reported, `callback` is not a terminal parameter and no task it needs reported an error; a task error, a `callback` terminal parameter or an empty round leaves it pending; with no errors, distinct lists and a terminal function taking at least one task and not `callback`, it completes |
| Runner.Run | index.js:208-211 | runner throws getArguments' error for the terminal function, otherwise throws exactly when the map cannot be built: the first unreadable task's error, else NotFound naming the first unknown mentioned name, else the circular reference of the first key that revisits; otherwise it behaves as Execute |

## Left out

- Promises, the event loop and real concurrency are not modelled. A round's completions arrive in an order given as a parameter, and each task reports exactly once. A task that calls its callback twice or never is not covered.
- A task that calls its callback synchronously, during the launch loop, would run the handler before later tasks launch. The model launches the whole stack first.
- `Function.prototype.toString` is not modelled; a function is given by its source text. The application of tasks and of the terminal function (`func.apply`) is not modelled. What a task reports is a parameter, and what the terminal function returns is not part of the result.
- A task that throws synchronously while being launched is not modelled.
- The pluggable enumerator (index.js:19-25, 36) is always the default `Object.keys`. Keys are taken in insertion order; JavaScript's ordering of integer-like keys first is not modelled. Neither are inherited properties of plain objects. Used as task names, `constructor` or `__proto__` are not modelled. Used as dependency or terminal parameter names, `toString` or `constructor` pass the `in` test of index.js:51 and the `!child` test of index.js:98; the code then throws a TypeError at index.js:75 or index.js:102, where the model reports NotFound or MissingDependency.
- buildTree (index.js:84-88) is dead code and is not modelled.
- Results are opaque values with a truthiness flag; their contents are not modelled.
- The stored function in each map entry is not kept, since it is only ever applied.
- `reject` at index.js:244 is unbound. It is reached when runStack rejects, which happens when a task throws synchronously at index.js:200 inside the promise executor of index.js:139. That synchronous throw is left out (see above), so this path is not modelled.
- Copies of lists (`concat([])`) and the shared `all` object are values. Aliasing between them is not modelled.
- Cycles.CheckDependencies: the contract says what any reported stack looks like, namely the old stack followed by a chain from `name` whose top depends on a name on the stack. It does not pin down which such chain the depth-first order picks. So the message `language > bankAccount > profile > user` of test/index.spec.js:81-90 is not derived as a concrete instance.
- Arguments.GetArguments: the whole-source examples of test/index.spec.js:9-46, such as `(one, two)` giving `['one', 'two']`, are not proved as instances. The comment pieces of those tests are covered one piece at a time: Arguments.StarredComment proves one as a concrete instance, and the two others are instances of the general Arguments.CommentedPiece.
- Runner.Execute: completion is proved only when no task errors, no list repeats a name, and the terminal function takes a task and not `callback`. Outside these conditions the model states which way the run ends, but not that it completes.
