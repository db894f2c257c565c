# typed-ast-util, modelled in Dafny

This is a model of the rule engine of `typed-ast-util`, a small static-analysis helper that works over ESTree syntax trees. It covers:

- the depth-first walker with its `enter`/`leave` listeners and `skip`;
- the append-only findings `Context`;
- `runRules`, which creates one visitor per rule and, in one walk, calls on every entered node each visitor's handler for that node's type, in rule-list order;
- the conversion of findings into result records (`positionToPoint`, `reportToResult`);
- the recovery of a source path from a `.ast.json` path;
- the aggregation loop of `checkAllASTs`.

Files:

- `wrappers.dfy` (`Wrappers`): `Option`.
- `estree.dfy` (`Estree`): nodes as an inductive datatype, in which a field holds one child, an array of children and holes, or a non-node value.
  - `Children` lists a node's children with the field and index that hold them.
  - `ChildAt` is `parent[prop]` / `parent[prop][index]`.
  - `Nodes` is the pre-order list of a tree.
- `walker.dfy` (`Walker`): `Walk` is the ordered trace of listener calls (`Enter`/`Leave` events carrying node, parent, field and index) of a walk whose enter listener calls `skip` exactly on the visits where the predicate `skip` holds.
- `rule_engine.dfy` (`RuleEngine`): `Report`, the `Context` class, handlers and visitors, the reference functions `EnterNode`/`Dispatch`, and the imperative `RunRules`, proved against `Dispatch` over the pre-order node list.
- `batch_runner.dfy` (`BatchRunner`): `Point`/`Result`, `ReportToResult`, `LastIndexOf`, `OriginalPath`, and the imperative `CheckAllASTs`, proved against `AllResults`.

A handler is modelled as a function from the findings filed so far and the node to the findings it files. `EnterListener`/`FileAll` file those findings into the context one by one, as the handler's `context.report` calls would.

## Model

| member | source | states |
|---|---|---|
| RuleEngine.Context.constructor | src/rule.ts:52-53 | a new context holds no reports |
| RuleEngine.Context.Report | src/rule.ts:54-57 | the log afterwards is the old log with exactly `report` appended at its end, so earlier reports are unchanged |
| RuleEngine.Context.GetReports | src/rule.ts:58-60 | returns every report filed, in filing order |
| Estree.Children | src/rule.ts:27-30 | the children a walk visits, in visiting order: fields in key order, array elements in index order, holes skipped (this order is its definition); its contract states that every listed child is a proper part of the node, and Estree.ChildrenAreLinked / Estree.LinkedAreChildren tie the list to `parent[prop]` |
| Estree.Truthy | src/index.ts:35 | JavaScript truthiness of a payload, as the `if (report.extra)` test applies it: `null`, `false`, `0` and `""` are falsy, everything else is truthy (this is its definition, with no contract of its own); its consequences are stated by BatchRunner.ReportToResult |
| Walker.Walk | src/rule.ts:31-39 | the event trace of a walk; it has no contract of its own, and its properties are the Walker lemmas below (WalkBrackets, SiblingsInOrder, SkipLeavesAtOnce, RootWalkLinked, EnteredIsPreOrder) |
| Estree.ChildrenAreLinked | src/rule.ts:19-24 | each child the walk visits sits in its parent where its field and index say: `parent[prop] == node`, or `parent[prop][index] == node` for an array field |
| Estree.LinkedAreChildren | src/rule.ts:19-24 | conversely, every node found at `parent[prop]` or `parent[prop][index]` is a child the walk visits, with that field and index |
| Estree.OfTag | src/rule.ts:153-160 | the nodes of a given type: a node is kept iff it is in the input and has that type tag; never longer than the input |
| Walker.WalkBrackets | src/rule.ts:27-30 | in a node's walk, `enter(n)` is the first event and `leave(n)` the last; every event in between is about a proper descendant of n |
| Walker.WalkStaysInside | src/rule.ts:27-30 | every event of a node's walk is about a node of that subtree |
| Walker.ChildBlock | src/rule.ts:27-30 | the walk of the i-th child is one contiguous block of its siblings' trace, immediately after the blocks of the earlier children |
| Walker.SiblingsInOrder | src/rule.ts:27-30 | for children i < j of a node, `enter(c_i)` comes before `leave(c_i)`, which comes before `enter(c_j)` |
| Walker.OffsetMonotone | src/rule.ts:27-30 | the blocks of later children start no earlier than those of earlier children |
| Walker.WalkChildrenAppend | src/rule.ts:27-30 | walking two runs of siblings is walking the first run and then the second |
| Walker.SkipLeavesAtOnce | src/rule.ts:16 | whenever the enter listener calls skip for a node, the very next event is that node's leave, so no event fires for any of its descendants |
| Walker.SkipsAtOnceAppend | src/rule.ts:16 | the skip property survives concatenating traces |
| Walker.WalkLinked | src/rule.ts:19-24 | every event of a walk other than its starting visit carries a parent, a field and an index such that `parent[prop] == node` or `parent[prop][index] == node` |
| Walker.RootWalkLinked | src/rule.ts:19-24 | walking from the root, the first and last events are the root's and carry no parent, field or index; every other event is linked to its parent |
| Walker.EnteredAppend | src/rule.ts:27-30 | the nodes entered in two traces in turn are those of the first trace followed by those of the second |
| Walker.EnteredIsPreOrder | src/rule.ts:27-30 | a walk that never skips enters every node of the tree exactly once, in pre-order |
| RuleEngine.Handle | src/rule.ts:154-160 | a rule's handler only appends to the log; a rule without a handler for the node's type leaves the log unchanged |
| RuleEngine.EnterNode | src/rule.ts:153-161 | the handlers called on one node only append to the log |
| RuleEngine.Dispatch | src/rule.ts:150-163 | dispatching over a node sequence only appends to the log |
| RuleEngine.RunRules | src/rule.ts:144-165 | returns the context it was given; its log afterwards is the old log extended by every rule's handler calls on every node of the tree, in pre-order and in rule-list order within a node |
| RuleEngine.EnterListener | src/rule.ts:151-162 | the enter listener calls each rule's handler for the node's type in rule-list order, each seeing what the earlier ones filed |
| RuleEngine.FileAll | src/rule.ts:54-57 | filing findings one by one appends exactly them, in order |
| RuleEngine.RunRulesFresh | src/rule.ts:144-148 | without a context a fresh one is created, and it ends up holding exactly the run's findings |
| RuleEngine.NoHandlerNoReports | src/rule.ts:157-160 | rules with no handler for any node's type (empty visitors in particular) add no reports |
| RuleEngine.NoHandlerAtNode | src/rule.ts:157-160 | at one node, rules without a handler for its type leave the log unchanged |
| RuleEngine.DispatchAppend | src/rule.ts:147 | dispatching over two node sequences in turn equals dispatching over their concatenation, so a reused context keeps earlier reports as a prefix |
| RuleEngine.DispatchOrder | src/rule.ts:149-162 | with handlers that do not look at the log, a run appends exactly the reference sequence: node order first, rule-list order within a node |
| RuleEngine.EnterNodeOrder | src/rule.ts:153-161 | with such handlers, the findings at one node come in rule-list order |
| RuleEngine.SingleHandlerReportsEachMatch | src/rule.ts:149-162 | one rule reporting once per call on type T appends exactly one report per node of type T, in walk order, and only on nodes of type T |
| RuleEngine.OneProgramReport | tests/rule.ts:35-41 | the `Program` rule files exactly one report on a tree whose only `Program` node is its root |
| RuleEngine.ExistingContextAccumulates | tests/rule.ts:33-51 | a context passed to two runs holds the first tree's report followed by the second tree's |
| BatchRunner.PositionToPoint | src/index.ts:22-27 | a point has the position's line and column verbatim |
| BatchRunner.ReportToResult | src/index.ts:30-49 | the check id and the path are copied; `extra` is present iff the report's is truthy, and is then equal to it; without `loc` there is neither `start` nor `end`; `start` (`end`) is present iff `loc.start` (`loc.end`) is, with the same line and column |
| BatchRunner.LastIndexOf | src/index.ts:72 | the result is -1 or an index where the pattern occurs, and the pattern occurs at no later index |
| BatchRunner.SearchBack | src/index.ts:72 | searching backwards from i finds the last occurrence at or before i, or -1 |
| BatchRunner.OriginalPath | src/index.ts:68-73 | the recovered path is a prefix of the relative path, cut at the last occurrence of `.ast.json`, and is empty when the suffix does not occur |
| BatchRunner.OriginalPathOfTreeFile | src/index.ts:68-73 | stripping `.ast.json` from `stem.ast.json` gives back `stem` (so `a/b/foo.ast.json` becomes `a/b/foo`) |
| BatchRunner.ResultsFor | src/index.ts:66-74 | one result per report, in order, each the report's result for the given path |
| BatchRunner.CheckAllASTs | src/index.ts:63-77 | the results are those of every file in the given order, each file's run on a fresh context, each finding converted with its own file's recovered path |
| BatchRunner.PushResults | src/index.ts:66-74 | the inner loop appends one result per report of a file, in report order |
| BatchRunner.ResultsOfPrefix | src/index.ts:64-76 | the results of the first files of a batch are a prefix of the results of the whole batch |
| BatchRunner.ResultsLayout | src/index.ts:64-76 | the j-th report of file i becomes the result right after all results of earlier files plus j, tagged with file i's recovered path |
| BatchRunner.ResultCount | src/index.ts:64-76 | the batch has exactly as many results as reports across its files |
| BatchRunner.SampleScenario | tests/rule.ts:18-31 | a `NewExpression` rule run on a tree with a single `NewExpression` yields exactly one result, for `sample` from `sample.ast.json`, located at the expression's start and end |

## Left out

- The internals of the `estree-walker` library are not part of this model. The walk is written directly from the listener contract at src/rule.ts:14-30. The library's `replace`/`remove` hooks are not modelled.
- Walker.Walk: `skip` is modelled as a predicate on the visit, so an enter listener whose choice depends on its own mutable state is not captured.
- Walker.Walk: a skipped node's own `leave` still fires in this model. This is a modelling choice. The comments at src/rule.ts:16 and 27-30 do not settle it, and the walker library that src/rule.ts:35-38 delegates to may not call `leave` for a skipped node.
- RuleEngine.Rule: a rule is modelled as the visitor its `create` returns for a run. Any state a rule keeps across handler calls inside `create`'s closure is not modelled. A handler sees the log filed so far instead.
- RuleEngine.Context.GetReports: returns the log as a value, a snapshot. The source returns the live array, so a caller holding it sees later reports appear. No caller in the modelled code depends on that aliasing.
- The 60-odd typed keys of `Visitor` are represented by a map from a type tag string to a handler. An unmapped tag is a missing or falsy handler.
- The `inferredType` augmentation of nodes is not modelled.
- Handlers that throw are not modelled; every handler returns the findings it files.
- `extra` is a JSON value. Truthiness is modelled for it, but numbers are integers, so `NaN` and fractional values are not captured.
- Position lines and columns are unbounded integers, not JavaScript doubles.
- `checkAllASTs` takes the list of (relative path, tree) pairs as input. File discovery with `glob.sync`, `fs.promises.readFile`, `JSON.parse`, `path.relative` and `async`/`Promise` are I/O and foreign calls, and are not modelled.
- Cyclic trees cannot be expressed, because nodes are an inductive datatype.
- Walker.WalkLinked, Walker.RootWalkLinked: these require every node to have distinct field names, as a parsed JSON object does. Without that, `parent[prop]` names the first field only.
- BatchRunner.SampleScenario: stated for any tree with exactly one `NewExpression`, rather than for the concrete tree a parser produces from `const x = new Array();`.
- RuleEngine.ExistingContextAccumulates: stated for any two trees whose only `Program` node is the root, rather than for two concrete parsed scripts.
