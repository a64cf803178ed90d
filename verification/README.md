# A model of gnata's evaluator

gnata evaluates JSONata 2.x expressions over JSON. Much of it stands a fast form in for a simple
meaning: a table for a backtracking matcher, a walk over raw bytes for an evaluator, a loop with an
explicit stack and a memo for a recursive function, a cached plan for one built anew. This project
models those parts in Dafny and proves that the fast form keeps the simple meaning, on all inputs.

- **Signatures** (`SignatureRegex`, `SignatureMatching`, `SignatureCalls`): the counts a backtracking
  regex picks first, and the tables, shortcuts, binary search and static query that stand in for it.
- **JSON text** (`JsonSyntax`, `JsonParse`, `JsonValidate`, `JsonTree`, `JsonDecode`, `JsonEncode`,
  `JsonWalk`, `JsonUnicode`): the grammar of sections 2 to 7 of RFC 8259, as syntax trees and their text; a
  parser proved to read exactly those texts; and against it the pushdown validator, the decoder, the printer
  and the walks that index valid text without looking back; and every way to write a text of characters,
  surrogate pairs included.
- **What an expression reads** (`Trees`, `PathEval`, `PathPruning`, `PathReads`, `PathSoundness`,
  `PathCollector`, `ReferencedPaths`, `ReadsLess`, `PathRuns`, `PathLooks`, `PathUnknown`, `DeadBranch`,
  `DroppedFilters`): an evaluator for paths, filters, variables, operators, conditions, array constructors,
  calls and blocks; the analysis as a specification and as the collector over a trie; runs that follow where
  in the input each value is, whatever way they take, and that the analysis reports exactly what they look
  at; that the input pruned to those paths gives the same result; and exactly when a filter whose result is
  dropped makes it differ.
- **Filters and paths twice** (`PathFilter`, `PathWalk`, `NestedArrays`): a filter evaluated once against
  the per-item loop, and the path walk over a raw document against the evaluator.
- **Values in memory** (`ObjectGraph`, `TruthWalk`, `NameWalk`, `Detach`, `TreeSearch`, `Merging`,
  `Fields`, `Transform`): objects and arrays with identities, the memoised walks over them, and transforms,
  which change objects of a clone in place and must never make it contain itself.
- **Pictures** (`PictureMatch`): the memoised depth-first match against the longest-first search.
- **Plans** (`Plans`, `PlanKey`, `PlanCache`, `Streams`, `StreamRuns`, `StreamHarm`): the plan of a batch,
  its cache key, the ring with its snapshot, and the runs of batches interleaved with changes of the
  registered expressions.
- **Numbers** (`Rounding`, `DecimalParse`, `Numerals`, `NumberWords`): decimal parsing that keeps one
  digit for all those it drops, and numerals and words read back by their parsers.

Four statements the code or its comments make turn out not to hold as they are made. The model follows
the code, and a lemma gives an input for each:

- gnata.go:726-727 says that a complete report makes the pruned input give the same result. A computed
  filter whose result is never used can fail on one of the two inputs alone
  (`DroppedFilters.PrunedAloneFails`, `DroppedFilters.FullAloneFails`), and does so exactly when its
  predicate fails and is evaluated over one of the two only (`DroppedFilters.DroppedFilterShows`);
  without variables the statement holds (`ReferencedPaths.BindingFreeIsExact`).
- path_bytes.go:18-19 says the two path walkers are kept in sync. Where a step before the last comes to
  one array, the next takes it as several contexts in the walk and as one in the evaluator. On every
  document with distinct keys the two are in sync if and only if each step after such an array is one of
  those on which that makes no difference (`NestedArrays.LoneStepAgrees`, `NestedArrays.InSyncExactly`);
  `NestedArrays.NestedArraysDiffer` has a document on which it does.
- stream.go:178 says `Replace` is safe concurrently with `EvalMany`. A batch can use a plan of another
  expression than the one it loaded: from any state of any run, publishing a change can lead to such a batch
  if and only if the change is at odds with a batch under way or with a cached plan, or these already are
  with each other (`StreamHarm.HarmInRun`, `StreamHarm.ReplaceHarms`). After an orderly run, removing is safe
  until something else is published.
- internal/decimal/decimal.go:55-56 says a capped exponent is already out of range. Behind enough zeros it
  need not be: beyond it, the cap is hidden if and only if the digits are zero, or the number overflows at
  the smaller exponent or vanishes at the larger (`DecimalParse.CapExactly`, `DecimalParse.CapShows`).

## Model

| member | source | states |
|---|---|---|
| `SignatureRegex.BacktrackFindsFirst` | internal/evaluator/signature.go:513-559 | The assignment the backtracking matcher returns is valid and comes before every other: at the first parameter where they differ it takes more arguments, or fewer if lazy. |
| `SignatureRegex.MatchesIffAssigned` | internal/evaluator/signature.go:513-559 | The matcher fails exactly when no assignment exists. |
| `SignatureRegex.MatchesRecurrence` | internal/evaluator/signature.go:520-540 | From each parameter and argument, matching is the table's three-way choice of skipping, taking one, or taking one more. |
| `SignatureMatching.Compile` | internal/evaluator/signature.go:96-130 | Every compiled signature keeps the flags the shortcuts rely on: variadic, has context, matches no arguments, optional from the second on, and its required count. |
| `SignatureMatching.Solve` | internal/evaluator/signature.go:513-559 | For any parameters, arguments and prefix, anchored or not: succeeds exactly when an assignment exists, with the one backtracking finds first and the number of arguments it takes. |
| `SignatureMatching.MatchFixed` | internal/evaluator/signature.go:566-609 | Without +, the table indexed by skips gives the same success and the same counts as backtracking. |
| `SignatureMatching.FixedTakesFew` | internal/evaluator/signature.go:566-575 | Without +, a match takes no more arguments than there are parameters left. |
| `SignatureMatching.MatchSymbols` | internal/evaluator/signature.go:499-508 | Either matcher gives the first assignment of the whole call. |
| `SignatureMatching.NoArguments` | internal/evaluator/signature.go:485-497 | A call without arguments matches exactly when every parameter is optional, each taking none. |
| `SignatureMatching.Match` | internal/evaluator/signature.go:485-497 | The zero-argument shortcut included, the counts are those backtracking finds first. |
| `SignatureCalls.InOrderPicked` | internal/evaluator/signature.go:249-273 | Arguments that fill the parameters in order, none lazy, with optional ones left, are assigned in order. |
| `SignatureCalls.FullCallTakesOneEach` | internal/evaluator/signature.go:199-206 | As many arguments as parameters, without +, leave no parameter to the context. |
| `SignatureCalls.InjectsDecides` | internal/evaluator/signature.go:199-236 | Whether filling changes a call is decided by the symbols alone. |
| `SignatureCalls.InjectedIsAssigned` | internal/evaluator/signature.go:208-236 | A call with the context filled in is itself one the signature takes, with one argument for each parameter that was left to it. |
| `SignatureCalls.ShortcutInjectsNothing` | internal/evaluator/signature.go:199-206 | Every call a shortcut leaves alone is one nothing is inserted into. |
| `SignatureCalls.Inject` | internal/evaluator/signature.go:199-206 | On every call, shortcuts and size limit included, the result is that of filling the first assignment, and is the arguments in order with the context put in between. |
| `SignatureCalls.InjectedInterleaves` | internal/evaluator/signature.go:208-236 | A filled call is the arguments, in order and complete, with nothing but the context put in between. |
| `SignatureCalls.FilledUnless` | internal/evaluator/signature.go:208-236 | A call cannot be filled exactly when some parameter left to the context does not take its type; the error names the argument after those taken before the first such parameter. |
| `SignatureCalls.InjectMatched` | internal/evaluator/signature.go:208-236 | Without the shortcuts the result is the same. |
| `SignatureCalls.FillsInOrderSymbols` | internal/evaluator/signature_static.go:79-94 | True exactly when the symbols fill the parameters in order and only optional ones without context are left. |
| `SignatureCalls.FillsInOrder` | internal/evaluator/signature.go:249-273 | True exactly when every argument is taken as it is, in order, and only optional parameters without context are left. |
| `SignatureCalls.ShortcutValidatesUnchanged` | internal/evaluator/signature.go:288-298 | A call that fills the parameters as it is validates to itself, missing arguments being undefined ones. |
| `SignatureCalls.Validate` | internal/evaluator/signature.go:288-298 | On every call the shortcuts give what matching, filling, wrapping and checking give, errors and their argument numbers included; where it succeeds each matched parameter passes the argument at its position, as it is or in an array of its own, and a parameter without one the context or nothing. |
| `SignatureCalls.ValidateMatched` | internal/evaluator/signature.go:300-359 | Without the shortcuts, the copy-on-write output passes what the parameters pass by position, each standing for its argument as above. |
| `SignatureCalls.TakenArraysChecked` | internal/evaluator/signature.go:396-415 | What an array parameter passes is undefined or an array whose items all have its content type. |
| `SignatureCalls.WrappedKeepsValues` | internal/evaluator/signature.go:396-415 | Wrapping an argument keeps its values: an array is passed as it is, any other value alone in an array; it fails exactly when these do not have the content type. |
| `SignatureCalls.ValidGives` | internal/evaluator/signature.go:300-359 | A call that is taken passes, parameter by parameter, values that stand for the arguments at its positions; if none is skipped, every position has the values of the argument there. |
| `SignatureCalls.MatchingCallIsTaken` | internal/evaluator/signature.go:80-82 | Counting arguments first rejects no call that matches. |
| `SignatureCalls.PrefixesMonotone` | internal/evaluator/signature.go:440-460 | If a prefix of the parameters matches a start of the arguments, so does every shorter one. |
| `SignatureCalls.MismatchError` | internal/evaluator/signature.go:440-460 | The binary search blames the argument after the greedy match of the longest matching prefix. |
| `SignatureCalls.BlamedWholeCall` | internal/evaluator/signature.go:440-460 | Cutting off surplus arguments does not change the blame: exactly the prefixes up to the longest match the whole call, and the blamed argument is the one after what that prefix takes of it. |
| `SignatureCalls.MayInsertIffChanged` | internal/evaluator/signature_static.go:14-22 | No call with some symbols can get the context inserted exactly when Inject leaves every such call alone. |
| `SignatureCalls.InjectsSymbols` | internal/evaluator/signature_static.go:54-77 | For one choice of symbols: true exactly when the context is inserted. |
| `SignatureCalls.Try` | internal/evaluator/signature_static.go:36-52 | Trying symbols in a shared buffer finds an inserting completion exactly when one exists, and leaves the earlier symbols alone. |
| `SignatureCalls.MayInject` | internal/evaluator/signature_static.go:22-52 | False only if no arguments with those symbols get the context inserted; below the cap, true only if some do. |
| `JsonParse.ParsesWholeIffJson` | path_bytes_nested.go:150-193 | The recursive parser accepts exactly the texts the grammar spells. |
| `JsonValidate.ValidPart` | path_bytes_nested.go:266-300 | One character of a string: the check agrees with the grammar on escapes, control characters and UTF-8. |
| `JsonValidate.ValidJSONString` | path_bytes_nested.go:266-300 | Agrees with the grammar on where a string ends, or that there is none. |
| `JsonValidate.ValidJSONNumber` | path_bytes_nested.go:314-346 | Agrees with the grammar on where a number ends, or that there is none. |
| `JsonValidate.ItemThenContinues` | path_bytes_nested.go:150-193 | Reading an item with its array open is reading it and then the pending closers. |
| `JsonValidate.ValidJSONScalarOrOpen` | path_bytes_nested.go:196-238 | Down to the first scalar or empty container, the stack is the grammar's pending closers. |
| `JsonValidate.AfterJSONValue` | path_bytes_nested.go:158-190 | Closing containers and going on after commas keeps what is left the same: the stack stays the pending closers. |
| `JsonValidate.ValidJSON` | path_bytes_nested.go:150-193 | True exactly when the bytes are one JSON value with whitespace around it, at any depth. |
| `JsonTree.PartsOfText` | internal/evaluator/json_encode.go:315-364 | Whatever its bytes, a string prints as well-formed characters and escapes. |
| `JsonTree.PartsOfValue` | internal/evaluator/json_encode.go:315-364 | A valid UTF-8 string prints as text that stands for it. |
| `JsonTree.EncodeDecoded` | internal/evaluator/json_encode.go:340-360 | A character that decodes is written back as the bytes it was read from. |
| `JsonTree.PrintIsText` | internal/evaluator/json_encode.go:33-100 | What is printed is the text of a well-formed syntax tree. |
| `JsonTree.SyntaxMeaning` | internal/evaluator/json_encode.go:33-100 | For valid strings, distinct keys and plain numbers, what is printed means the value printed. |
| `JsonTree.PrintedIsJson` | internal/evaluator/json_encode.go:33-100 | Everything printed is valid JSON text, whatever bytes its strings hold. |
| `JsonTree.PlainExactly` | internal/evaluator/json_encode.go:293-301 | A number is printed exactly when its literal is a number of the grammar. |
| `JsonUnicode.PairRead` | internal/evaluator/fast_decode.go:308-318 | A surrogate pair is read as the character whose UTF-16 units it is. |
| `JsonUnicode.WrittenMeans` | internal/evaluator/fast_decode.go:254-324 | A text of any characters means their UTF-8, however each is written: itself, as a letter behind a backslash, or as the hex digits, in either case, of its one or two UTF-16 units. |
| `JsonEncode.AppendJSONString` | internal/evaluator/json_encode.go:315-364 | Copying stretches and escaping the rest appends the printed string. |
| `JsonEncode.EncodeFrame.NextChild` | internal/evaluator/json_encode.go:132-169 | Printing a child's separator and key leaves the child and the rest of the frame to print. |
| `JsonEncode.NextContainer` | internal/evaluator/json_encode.go:60-100 | Printing scalars and closing frames up to the next container keeps the whole text, in order. |
| `JsonEncode.Open` | internal/evaluator/json_encode.go:33-60 | Opening a container leaves its text to print, and less work. |
| `JsonEncode.AppendJSON` | internal/evaluator/json_encode.go:33-100 | The stack of frames appends the text of the value, or fails exactly when a number literal is not plain. |
| `JsonDecode.PairAdvances` | internal/evaluator/fast_decode.go:286-324 | Two escapes that form a surrogate pair are read as one character. |
| `JsonDecode.AppendEscape` | internal/evaluator/fast_decode.go:286-324 | An escape is decoded as the grammar's parts mean it, surrogate pairs included. |
| `JsonDecode.FastDecoder.Str` | internal/evaluator/fast_decode.go:234-251 | A plain ASCII string is taken as it is; any other is the string the parts mean. |
| `JsonDecode.FastDecoder.StrSlow` | internal/evaluator/fast_decode.go:254-283 | A string with escapes or other characters is decoded to what its parts mean. |
| `JsonDecode.FastDecoder.Value` | internal/evaluator/fast_decode.go:49-77 | A valid value is decoded to its meaning and its end unless it nests too deep. |
| `JsonDecode.FastDecoder.ArrayItems` | internal/evaluator/fast_decode.go:149-181 | The items left are decoded in order up to the bracket. |
| `JsonDecode.FastDecoder.ObjectMembers` | internal/evaluator/fast_decode.go:87-136 | The members left are collected in order up to the brace. |
| `JsonDecode.FastDecodeJSON` | internal/evaluator/fast_decode.go:19-23 | Succeeds exactly when the text nests at most 10,000 deep, with its meaning; and gives back the value that was printed, for valid strings, distinct keys and plain numbers; a text of any characters, each written as itself or as any escape, is read as their UTF-8. |
| `JsonWalk.SkipJSONString` | path_bytes_nested.go:136-147 | On valid text, looking only for quotes and backslashes finds the end of the string. |
| `JsonWalk.ValueRun` | path_bytes_nested.go:103-133 | Counting brackets outside strings comes out at the end of a value, at the same depth. |
| `JsonWalk.SkipJSONValue` | path_bytes_nested.go:103-133 | On valid text the scan ends where the value does, without running past the text. |
| `JsonWalk.WalkArray` | path_bytes_nested.go:24-50 | Walking from inside an array finds what the recursive lookup finds in its items, and comes out at its end. |
| `JsonWalk.StepNestedArray` | path_bytes_nested.go:24-50 | The one-pass walk gives the field's values at any array depth in document order, each array value flattened one level, collapsed; it stays in range and ends. |
| `JsonWalk.FoundMeaning` | path_bytes_nested.go:8-22 | With distinct keys the lookup over the text is the lookup over the decoded value. |
| `JsonWalk.GatherGet` | internal/evaluator/fast_decode.go:138-147 | A decoded object holds its members over those set before. |
| `PathPruning.LookupPruned` | internal/evaluator/eval_helpers.go:546-643 | Looking a field up, over arrays at any depth, commutes with pruning; a path not kept is not found at all. |
| `PathPruning.GetPruned` | gnata.go:726-727 | A field survives pruning exactly when its path leads to or past a recorded one. |
| `PathPruning.GatheredSame` | internal/evaluator/eval_helpers.go:461-500 | Gathering a step's results, lone arrays and collapsing included, commutes with pruning. |
| `PathPruning.NameStepSame` | internal/evaluator/eval_helpers.go:461-500 | A field step over the pruned value gives the pruned result. |
| `PathSoundness.EvalSame` | internal/parser/referenced_paths.go:109-188 | Both runs of any expression of the fragment agree on a result at the path the analysis reports, or a run that is not strict fails. |
| `PathSoundness.BlockSame` | internal/parser/referenced_paths.go:299-316 | Blocks with variables agree, each variable at the path it was bound to. |
| `PathSoundness.SelectSame` | internal/evaluator/eval_binary.go:265-312 | A filter's stage agrees over bases that agree, an undefined base included. |
| `PathSoundness.DeadSteps` | internal/parser/referenced_paths.go:236-246 | Steps over a path that is not recorded only read fields of it and pass on nothing in the pruned run. |
| `PathCollector.Collector.AppendField` | internal/parser/referenced_paths.go:446-462 | Extends a path in the trie, or gives up for good at the cap. |
| `PathCollector.Collector.Read` | internal/parser/referenced_paths.go:96-106 | Records a whole value once; the root makes the report incomplete. |
| `PathCollector.Collector.Eval` | internal/parser/referenced_paths.go:109-188 | The walk over the expression records in the trie what the specification reports, and gives its result's path. |
| `PathCollector.Collector.PathSteps` | internal/parser/referenced_paths.go:219-233 | Each step is resolved against the result of those before it. |
| `PathCollector.Collector.Bind` | internal/parser/referenced_paths.go:428-434 | Binding pushes on the variable's stack; one bound more than once reads as any value. |
| `PathCollector.Collector.PopScope` | internal/parser/referenced_paths.go:418-426 | Ending a scope binds its variables as outside it again. |
| `PathCollector.Collector.Result` | internal/parser/referenced_paths.go:467-487 | The recorded paths from the trie's parent links, each once, or none past the size cap. |
| `ReferencedPaths.ReferencedPaths` | internal/parser/referenced_paths.go:24-43 | Complete exactly when nothing unknown is used, no run looks at the input as a whole, and what runs look at is within the caps. Within the caps the paths are those some run looks at as a whole and no others, none twice, in the order a run that takes every way first looks at them. |
| `PathLooks.RunTells` | internal/parser/referenced_paths.go:90-345 | For every expression the analysis says what a run that takes every way looks at, in order, and where its result is. |
| `PathLooks.EveryWay` | internal/parser/referenced_paths.go:90-345 | That is exactly what the runs look at that take one branch of each condition and go on or stop. |
| `PathUnknown.AnythingExactly` | internal/parser/referenced_paths.go:198-345 | A run may look at anything exactly when it uses a variable not in scope or bound more than once, or calls one in scope or eval. |
| `ReferencedPaths.BoundIsTimes` | internal/parser/referenced_paths.go:489-527 | The names counted as bound are those the expression binds, as often. |
| `ReferencedPaths.ReadsLookedAt` | internal/parser/referenced_paths.go:24-43 | The report is complete exactly when nothing unknown is used and no run looks at the whole input, and records exactly the paths runs look at as a whole, and the filters they apply. |
| `ReferencedPaths.LooksSuffice` | gnata.go:709-745 | The paths runs look at as a whole suffice: pruned to them, every input gives its result, if neither run fails; failures included if every computed filter's base is on the way to one of them. |
| `DeadBranch.DeadNeverMatters` | gnata.go:709-745 | No evaluation of a ? (a ? b : dead) : d depends on more than a, b and d, whatever dead is. |
| `DeadBranch.DeadBranchReported` | internal/parser/referenced_paths.go:24-43 | A field there is reported all the same, and the input there makes the report incomplete. |
| `ReferencedPaths.PrunedInputSuffices` | gnata.go:709-745 | For every expression of the fragment and every input: when complete, and neither run fails, the pruned input gives the full input's result; failures included if every computed filter's base is on the way to a recorded path. |
| `ReferencedPaths.BindingFreeIsExact` | gnata.go:709-745 | Without variables the two inputs give the same result, failures included. |
| `PathCollector.AddAllDistinct` | internal/parser/referenced_paths.go:94-107 | Recording paths, each unless it is recorded, keeps them distinct. |
| `ReadsLess.CollectLess` | internal/parser/referenced_paths.go:41-43 | An analysis that knows less of where the context and the variables are in the input reports no path and no filter that one knowing more does not, and is complete whenever that is. |
| `DroppedFilters.ChainOutcome` | internal/evaluator/eval_binary.go:265-325 | A chain of fields that ends in a filter fails exactly when the predicate fails and something is there to filter: a value or a missing base at the end of the chain, but not an empty array and not behind an undefined step. |
| `DroppedFilters.DroppedRuns` | gnata.go:726-727 | Under any variables, both runs of a chain that is on no recorded path fail exactly when the one outcome its predicate has in the full run is a failure and their own document has something to filter. |
| `DroppedFilters.DroppedFilterShows` | gnata.go:726-727 | For ($x := chain[test]; 5), a chain of any length and a test that has one outcome over all items, variables and $$ included: the two inputs give different results if and only if the chain is not on the way to a recorded path, the test fails, and exactly one of the two inputs makes the chain evaluate it. |
| `DroppedFilters.GoneRuns` | gnata.go:726-727 | Where the chain's first field is pruned away, the pruned input evaluates the predicate if and only if the chain is that field alone. |
| `DroppedFilters.UnusedFiltersRead` | internal/parser/referenced_paths.go:299-316 | A filtered chain bound to a variable that is never read is not said to read anything. |
| `DroppedFilters.PrunedAloneFails` | gnata.go:726-727 | On {"a": []} such a filter fails on the pruned input alone. |
| `DroppedFilters.FullAloneFails` | gnata.go:726-727 | On {"a": {"b": null}} one fails on the full input alone. |
| `PathFilter.ContextFreeSame` | internal/evaluator/eval_binary.go:411-442 | Such a predicate has one value over all inputs. |
| `PathFilter.SortedSelect` | internal/evaluator/eval_binary.go:379-409 | Taking items at sorted positions is taking each item as often as its position occurs. |
| `PathFilter.FilterConstant` | internal/evaluator/eval_binary.go:379-409 | One predicate result applied to all items keeps those the per-item loop keeps, in order and as often. |
| `PathFilter.FilterByPredicate` | internal/evaluator/eval_binary.go:347-374 | Evaluated once or per item, the filter keeps the same items. |
| `PathFilter.ResolveCounts` | internal/evaluator/eval_binary.go:514-530 | An index counts from the first item, and a negative one from the last: it selects what the index without its sign, less one, selects of the reversed items. |
| `PathFilter.IndicesFilter` | internal/evaluator/eval_binary.go:379-409 | Indices keep the items they count to, each as often, in the items' order. |
| `PathFilter.OtherFilters` | internal/evaluator/eval_binary.go:379-409 | A predicate's value that is no position keeps all items or none, as it is true or not; an index that is not finite fails wherever it is. |
| `PathFilter.TruthyExactly` | internal/evaluator/value.go:617-680 | A value is true exactly when it is or holds, in arrays at any depth, a true one. |
| `PathWalk.StepArray` | path_bytes.go:81-110 | A field step over several contexts of the raw document, nested arrays walked. |
| `PathWalk.StepValue` | path_bytes.go:31-47 | A field step over a value, the document's array or several contexts. |
| `PathWalk.WalkPureSteps` | path_bytes.go:255-265 | The loop over the steps walks them in order from the document's root. |
| `PathWalk.ArrayStepAgrees` | internal/evaluator/eval_helpers.go:461-500 | A step over several contexts, arrays among them, gives the evaluator's outcome: the same value, which the evaluator still holds as a sequence where it is one array. |
| `NestedArrays.LoneStepAgrees` | internal/evaluator/eval_helpers.go:489-493 | After a step that comes to one array, the next gives the walk and the evaluator one value if and only if a condition on the array's items holds: on whether one of them is an array in which the lookup finds just an array, on how many values it finds in all and how many items a single one has, and, for the last step, on whether one item alone has the field. |
| `NestedArrays.InSyncExactly` | path_bytes.go:18-19 | On every document with distinct keys the evaluator's value after each step is the walker's if and only if every step after a lone array is such a step. |
| `NestedArrays.WalkAgreesExactly` | path_bytes.go:255-265 | Where the steps before the last are in sync, the path's value is the walker's, or both nothing, if and only if the last step is too. |
| `NestedArrays.WalkAgrees` | path_bytes.go:255-265 | For every chain of names over distinct keys, nested arrays included, in which no step but the last comes to one array: the walk gives the evaluator's value, the wrapped root and the last step's lone array included. |
| `NestedArrays.UnnestedAgrees` | path_bytes.go:255-265 | Without an array directly in an array that is every chain. |
| `NestedArrays.NestedArraysDiffer` | internal/evaluator/eval_helpers.go:489-493 | On {"a": [{"b": [[{"c": [null]}]]}]} the path a.b.c is an array walked and its item evaluated. |
| `PictureMatch.SearchIsFirst` | functions/datetime_match.go:37-119 | What the recursive longest-first search finds is a solution before all others, and it finds one if there is any. |
| `PictureMatch.Popped` | functions/datetime_match.go:66-83 | A frame that finds nothing leaves what there is to find to the one below. |
| `PictureMatch.PictureMatch.Spend` | functions/datetime_match.go:37-47 | Each attempt costs its characters and one; the budget only falls. |
| `PictureMatch.PictureMatch.Enter` | functions/datetime_match.go:86-98 | A part is tried from its longest length; a literal has one. |
| `PictureMatch.PictureMatch.NextLength` | functions/datetime_match.go:101-119 | The next length at which the part matches, and a marker's value, unless the match stops. |
| `PictureMatch.PictureMatch.Run` | functions/datetime_match.go:54-83 | True only with the values of the first solution, for which the input can be cut into pieces, one a part: a literal's the same text in small letters, a marker's one that is read whole as its value; false with steps left and no stop only if there are no such cuts; every memoised pair cannot match, and the loop ends. |
| `PictureMatch.SearchMatches` | functions/datetime_match.go:54-83 | The longest-first search finds values exactly when the input can be so cut. |
| `ObjectGraph.ValuePath.Enter` | internal/evaluator/value_copy.go:481-494 | Descends unless the container is known to be open; then it is open. |
| `ObjectGraph.ValuePath.DepthBound` | internal/evaluator/value_copy.go:470-508 | A path is no deeper than the untracked depth and one level per container. |
| `TruthWalk.QuietLeadsNowhere` | internal/evaluator/value.go:650-668 | Completed arrays that hold only false values and each other hold nothing true at any depth, cycles included. |
| `TruthWalk.AnyTruthy` | internal/evaluator/value.go:668-686 | On any memory, true exactly when a true value is reachable through nested arrays. |
| `TruthWalk.AnyTruthyNested` | internal/evaluator/value.go:688-734 | The same from the first nested array on, with completed arrays skipped while others are open; the loop ends. |
| `NameWalk.NotOpen` | internal/evaluator/eval_helpers.go:576-643 | An array about to be entered is never open where no array holds itself. |
| `NameWalk.EntriesFirst` | internal/evaluator/eval_helpers.go:546-573 | A field is the first entry with its key, if there is one. |
| `NameWalk.NameOverArray` | internal/evaluator/eval_helpers.go:546-573 | Mapping a field over items gives the recursive lookup's values. |
| `NameWalk.NameOverNested` | internal/evaluator/eval_helpers.go:576-643 | With frames and the identity memo, shared arrays included, the values are those of the lookup without a memo, in order. |
| `Detach.ReachesMore` | internal/evaluator/eval_transform.go:161-173 | What is new in memory is not under what was there. |
| `Detach.LeadsInChanged` | internal/evaluator/eval_transform.go:37-41 | Changing an object of the clone does not change what leads to the clone, so that memo stays right. |
| `Detach.CopyAvoids` | internal/evaluator/eval_transform.go:161-173 | No copy reaches the target. |
| `Detach.CopyUnfolds` | internal/evaluator/eval_transform.go:161-181 | A copy stands for the same finite tree as what it copies. |
| `Detach.MergeRanked` | internal/evaluator/eval_transform.go:434-449 | An object given values that do not reach it does not hold itself. |
| `TreeSearch.NoAnswer` | internal/evaluator/eval_transform.go:100-159 | Nothing is found under a value if nothing is under its children. |
| `TreeSearch.AllHold` | internal/evaluator/eval_transform.go:147-157 | When a match is found, every container open holds it. |
| `TreeSearch.RecordAll` | internal/evaluator/eval_transform.go:147-157 | So the memo recorded for all of them is right. |
| `Merging.FieldsSetAll` | internal/evaluator/ordered_map.go:49-58 | Setting entries in memory sets what they stand for, in place or last. |
| `Merging.FieldsWithoutAll` | internal/evaluator/ordered_map.go:70-80 | Deleting keys deletes them from what the entries stand for. |
| `Fields.SettingMerges` | internal/evaluator/ordered_map.go:49-58 | Fields set one after another: each key has the last value given it, or what it had; keys keep their order, new ones following in the order first set. |
| `Fields.DroppingLeaves` | internal/evaluator/ordered_map.go:70-80 | A deleted key is gone; every other keeps its value and its place. |
| `Merging.UnfoldApart` | internal/evaluator/eval_transform.go:434-449 | What does not reach an object stands for the same when it changes. |
| `Merging.Replaced` | internal/evaluator/eval_transform.go:434-449 | Replacing an object's entries by values that do not reach it: no cycle, it stands for them, and all that does not reach it is unchanged. |
| `Transform.UpdateSafe` | internal/evaluator/eval_transform.go:164-172 | An update that holds only its context's objects of the clone holds none that leads back to it. |
| `Transform.TransformClone.LeadsToMember` | internal/evaluator/eval_transform.go:78-88 | Says exactly whether a value is or holds an object of the clone. |
| `Transform.TransformClone.SearchTree` | internal/evaluator/eval_transform.go:100-159 | The walk with frames and memo finds a match exactly when there is one under the value, and its memo is right. |
| `Transform.TransformClone.Reach` | internal/evaluator/eval_transform.go:191-201 | Says exactly whether the target is a value or under it, although what leads to no object of the clone is skipped. |
| `Transform.TransformClone.Copy` | internal/evaluator/eval_transform.go:208-261 | Copies exactly what reaches the target, and the target without its children; everything else stays shared. |
| `Transform.TransformClone.DetachUpdate` | internal/evaluator/eval_transform.go:173-181 | The detached update stands for the same tree, does not reach the target, and is the update itself if that did not; memory only grows. |
| `Transform.TransformClone.Merge` | internal/evaluator/eval_transform.go:434-449 | Setting its entries in the target keeps the clone acyclic; the target then has the last value the update gives each key, or what it had, its keys in order and new ones following; what does not reach it is unchanged. |
| `Transform.TransformClone.Remove` | internal/evaluator/eval_transform.go:450-459 | The keys deleted are gone from what the target stands for; every other keeps its value and place. |
| `Transform.TransformClone.ApplyUpdate` | internal/evaluator/eval_transform.go:434-449 | Nothing or null changes nothing, any other value but an object is an error, and an object is merged, by lookup and order of keys. |
| `Transform.TransformClone.ApplyDelete` | internal/evaluator/eval_transform.go:450-459 | Deletes the keys of a string or an array of strings; any other value is an error. |
| `Transform.TransformClone.ApplyTarget` | internal/evaluator/eval_transform.go:434-461 | Update and then delete, each as above, changing no object but the target. |
| `Transform.TransformClone.ApplyTransform` | internal/evaluator/eval_transform.go:399-413 | Over any run of targets the document never holds itself, only the clone's objects among them change, and each as its clauses say. |
| `Plans.BuildPlan` | stream.go:502-552 | Each expression of the batch has its own fast path and no other; a kind none takes has no list, and compositions have none when the batch decodes anyway. |
| `Plans.PlanUnique` | stream.go:502-552 | A batch has one plan. |
| `Plans.ChoiceIsUsable` | stream.go:516-537 | What is chosen for an expression is a fast path of its own that calls no function whose name is shadowed; it is decoded only if it has none. |
| `Plans.PlanIsUsable` | stream.go:502-552 | No plan runs a builtin whose name is shadowed, or another expression's fast path. |
| `Plans.PlannedIs` | stream.go:378-437 | What a plan offers an expression first is how that expression is evaluated, or it is decoded. |
| `PlanKey.KeyInjective` | stream.go:489-500 | Two batches with one key have one schema key and the same indices, whatever characters the schema keys hold. |
| `PlanKey.AppendPlanCacheKey` | stream.go:489-500 | Appends the key. |
| `PlanCache.PutKeeps` | bounded_cache.go:99-128 | First in, first out: keys stay distinct and within the capacity, a key keeps its plan, and only the oldest of a full cache is lost. |
| `PlanCache.SlotNext` | bounded_cache.go:113-124 | Moving the head leaves every entry but the oldest of a full ring where it was. |
| `PlanCache.BoundedCache.constructor` | bounded_cache.go:61-72 | Empty, with a capacity of at least one. |
| `PlanCache.BoundedCache.Get` | bounded_cache.go:75-83 | Reads the snapshot, counting a hit or a miss. |
| `PlanCache.BoundedCache.Set` | bounded_cache.go:99-128 | The snapshot published is the first-in-first-out cache with the key put, and an eviction is reported exactly when the oldest entry made way. |
| `PlanCache.BoundedCache.Invalidate` | bounded_cache.go:132-142 | Empties the ring and the snapshot. |
| `Streams.HitIsCurrent` | stream.go:299-318 | While every cached plan is current, a hit is the plan of the batch asked for. |
| `Streams.StreamEvaluator.Add` | stream.go:141-156 | Appends at a stable index and clears the cache; every cached plan stays current. |
| `Streams.StreamEvaluator.Replace` | stream.go:179-193 | Puts another expression at an index that exists; every cached plan stays current. |
| `Streams.StreamEvaluator.Remove` | stream.go:200-214 | Leaves an index empty without reusing it. |
| `Streams.StreamEvaluator.Reset` | stream.go:222-229 | Removes every expression. |
| `Streams.StreamEvaluator.PlanOf` | stream.go:299-318 | Over every sequential history a hit equals the plan built from the current slice. |
| `Streams.Routed` | stream.go:326-343 | With its plan a batch tries for each expression that expression's own fast path, or decodes, and nothing for an index without one. |
| `Streams.StreamEvaluator.EvalMany` | stream.go:285-344 | The fast path each expression takes is its own and does not depend on what is cached. |
| `StreamRuns.PrefixSound` | stream.go:141-156 | A plan built from an older slice is sound for every reader of a slice that began alike. |
| `StreamRuns.StepKeeps` | stream.go:285-344 | Every orderly step keeps all cached and used plans to slices the present one extends. |
| `StreamRuns.RunsAreSound` | stream.go:136-156 | In every interleaving of batches and additions, and with changes made while no batch runs, every batch uses only fast paths of the expressions it loaded. |
| `StreamRuns.AddingIsOrderly` | stream.go:136-156 | With additions alone every interleaving is orderly. |
| `StreamHarm.HarmExactly` | stream.go:178-193 | From any state where no change is under way: once an edit is published, and before anything else is, a batch can come to use a plan that is wrong for the slice it loaded if and only if the edit is at odds with a batch under way or with a cached plan, or these are with each other. |
| `StreamHarm.HarmInRun` | stream.go:136-193 | The same at every moment of every run, orderly or not. |
| `StreamHarm.ReplaceHarms` | stream.go:178-193 | After an orderly run, replacing the expression at an index can do harm if and only if a batch under way asks for it under a schema key and its plan of the old expression is neither decoding nor the new choice, or a cached plan is so, or a batch yet to look its plan up would find one of the new expression wrong. |
| `StreamHarm.RemovalHarmless` | stream.go:195-238 | After an orderly run, adding an expression, removing one or removing all does no harm until something else is published. |
| `StreamHarm.StaleAfterChange` | stream.go:304-313 | From any such state: a batch under way stores its plan once the cache is cleared, and a later batch uses it. |
| `StreamHarm.StaleBeforeClear` | stream.go:178-193 | From any such state: a batch begun between a change and the clearing of the cache uses a cached plan. |
| `StreamHarm.AheadOfBatch` | stream.go:299-313 | From any such state: a batch that loaded the old slice uses the plan a later batch stored. |
| `StreamHarm.ReplaceCanHarm` | stream.go:178-193 | An orderly run comes to a state where replacing an expression can do harm. |
| `Rounding.RoundedUnique` | internal/decimal/decimal.go:228-230 | A number has one rounding, half to even, to a number of digits. |
| `Rounding.RoundToRounds` | internal/decimal/decimal.go:228-230 | Dividing the coefficient with ties to even rounds the number. |
| `Rounding.RoundedRange` | internal/decimal/decimal.go:206-216 | Rounding stays between the powers of ten around a number. |
| `Rounding.StickyAlike` | internal/decimal/decimal.go:206-211 | Numbers that agree in prec + 1 digits with more beyond round alike. |
| `Rounding.RangeOfFloat64` | internal/decimal/decimal.go:48-85 | The magnitudes float64 rounds to infinity and to zero lie in the decades the exponent limits say. |
| `DecimalParse.ParseExp` | internal/decimal/decimal.go:233-252 | Reads a signed exponent, its magnitude capped; fails on any other text. |
| `DecimalParse.Scan` | internal/decimal/decimal.go:160-190 | The digits kept, how many were dropped, whether any of those was not zero, and the scale stand for the digits read. |
| `DecimalParse.KeptStands` | internal/decimal/decimal.go:206-211 | The digits kept and one sticky digit round as the whole number does. |
| `DecimalParse.ResultRight` | internal/decimal/decimal.go:101-122 | The exponent limits and comparisons overflow and underflow exactly where float64 does. |
| `DecimalParse.FarOut` | internal/decimal/decimal.go:212-218 | Numbers past the early limits overflow or are zero once rounded. |
| `DecimalParse.WrittenIs` | internal/decimal/decimal.go:154-226 | Digits stand for the number written in them, behind any zeros. |
| `DecimalParse.Parse` | internal/decimal/decimal.go:154-226 | Fails on what is not a number and on overflow; else the value is the number, its exponent capped, rounded half to even to prec digits within the range of float64, which is its outcome with the exponent as written if and only if the cap is hidden. |
| `DecimalParse.CapExactly` | internal/decimal/decimal.go:55-57 | Capping keeps the outcome if and only if the digits are zero, the exponent is within the cap, or the rounded number overflows at the smaller of the two exponents or vanishes at the larger. |
| `DecimalParse.RoundedGrows` | internal/decimal/decimal.go:206-226 | Rounding commutes with scaling by a power of ten, and the rounded number grows with the exponent. |
| `DecimalParse.CapHarmless` | internal/decimal/decimal.go:55-57 | The cap is hidden in every text shorter than it by 400 characters. |
| `DecimalParse.CapShows` | internal/decimal/decimal.go:55-57 | A one behind as many zeros as the cap, lifted far out of range by its exponent, is parsed as 0.1: the cap is not hidden. |
| `Numerals.ToRoman` | functions/string_format_integer.go:536-554 | Subtracting symbols in turn prints the numeral. |
| `Numerals.FromRoman` | functions/string_format_integer.go:756-774 | Sums the letters, one before a greater counting against. |
| `Numerals.ParseRoman` | functions/datetime_parse.go:519-543 | Sums the letters from the right, of the numeral in either case that a text begins with. |
| `Numerals.RomanRoundTrip` | functions/string_format_integer.go:536-554 | Every number is read back from its numeral in either case, from the left and from the right. |
| `Numerals.ToAlphabetic` | functions/string_format_integer.go:556-567 | Prints bijective base 26 from the last letter. |
| `Numerals.FromAlphabetic` | functions/string_format_integer.go:776-785 | Reads it in 64 bits that wrap around. |
| `Numerals.ParseAlphabetic` | functions/datetime_parse.go:545-570 | Reads it from the letters a text begins with; a number that does not fit is the greatest that does. |
| `Numerals.LettersRoundTrip` | functions/string_format_integer.go:556-567 | Numbers are read back from their letters, and letters printed back exactly when their number fits in 64 bits. |
| `NumberWords.WordsHeard` | functions/string_format_integer.go:375-454 | The words of a number below a thousand trillion add it to what was read. |
| `NumberWords.OrdinalRoundTrip` | functions/string_format_integer.go:337-373 | A last word made ordinal is made cardinal again, and a cardinal is left alone. |
| `NumberWords.StyledLowered` | functions/string_format_integer.go:502-534 | Whatever its style, a text in words is the same in small letters. |
| `NumberWords.ToTitleCase` | functions/string_format_integer.go:502-534 | Letter by letter: large where a word begins that begins the text, follows a hyphen or is no particle, and small everywhere else. |
| `NumberWords.WordsToNumber` | functions/string_format_integer.go:694-742 | The loop reads the number the words come to. |
| `NumberWords.WordsReadBack` | functions/string_format_integer.go:655-742 | Every number below a thousand trillion is read back from its words, cardinal or ordinal, in any style. |
| `NumberWords.WordsPastTrillions` | functions/string_format_integer.go:694-742 | From there to 2 to the power 53, exactly when the count of trillions is of whole thousands. |

## Left out

- ReferencedPaths.PrunedInputSuffices: failures agree only where every computed filter's base is on the way to a recorded path; without that they do not (DroppedFilters.PrunedAloneFails, DroppedFilters.FullAloneFails). The condition can be read off the report; it is not needed when a dropped filter cannot fail, and DroppedFilters.DroppedFilterShows says exactly when one shows.
- DroppedFilters.DroppedFilterShows: of tests whose outcome differs from item to item, and of filters dropped in other places than a variable's only use; PrunedInputSuffices covers those, as a condition that suffices.
- ReferencedPaths.ReferencedPaths: a focus binding with a parent step in one expression, which makes the report incomplete, is not in the fragment.
- PathSoundness.EvalSame: for the expressions of the fragment; the rest are listed below.
- PathLooks.EveryWay: runs take every way through the branches, stops and filters of an expression, also one no evaluation takes; so a reported path need not be one some input makes an evaluation look at (DeadBranch.DeadBranchReported).
- PathCollector.Collector.Eval: the cases of wildcards, descendants, parents, ~>, sorts, lambdas, transforms, object constructors, focus, index and group are not in the fragment.
- PathPruning.GatheredSame: the array an array constructor makes as a path step is gathered as any other array is; the code keeps one such array per item, runs an unmapped constructor step once and does not unwrap the root array for a leading one.
- NestedArrays.WalkAgreesExactly: of walks whose steps are in sync up to the last. Two that part before it can come together again, where a later step finds nothing for one; InSyncExactly says when they never part. Documents have distinct keys.
- StreamRuns.RunsAreSound: replacing, removing and resetting only while no batch is evaluated, because the code does not keep the property otherwise; StreamHarm.HarmInRun says when it does.
- StreamHarm.HarmExactly: what can follow one edit until the next is published; for the next it is asked again, in the state that is reached.
- DecimalParse.Parse: apd's rounding is the plain rounding half to even of a coefficient.
- JsonEncode.AppendJSON: Go maps, nil containers, float64 values and values that contain themselves are not modelled.
- Streams.StreamEvaluator.EvalMany: gives the path tried first for each expression, not its value nor the decoding it falls back to.
- NumberWords.WordsToNumber: sums are of integers, as next.
- NumberWords.WordsReadBack: sums are of integers, as those of float64 are below 2 to the power 53; larger numbers are printed through float64 and are not part of this model. Words are set apart by ASCII spaces, hyphens and commas.
- NameWalk.NameOverArray: as NameOverNested, next.
- NameWalk.NameOverNested: for memory where no array holds itself; Go input that contains itself, and the element counts charged to a budget, are left out.
- Transform.TransformClone.LeadsToMember: for values that do not contain themselves, as the walks after it; the code skips a container it is in.
- Transform.TransformClone.SearchTree: the same.
- Transform.TransformClone.Reach: the same.
- Transform.TransformClone.Copy: an object's copy is put in memory once its children are copied, where the code creates it first and fills it in; nothing can see it in between. Frozen objects, the internal array types and Go maps are left out.
- Transform.TransformClone.ApplyTransform: evaluating a clause, cloning the input and matching the pattern are parameters, of which it is required that they change no object and make no cycle, and that an update holds no object of the clone but those under its context, where the clone has such leaves. The branch for matches that are no objects is left out.
- PictureMatch.PictureMatch.Run: parsing one marker's value, and when a match is stopped, are parameters. No piece is empty, as no literal of a picture is, and a marker's is no longer than what it reads of the rest of the input.
- JsonDecode.FastDecodeJSON: says what is decoded from valid text; on other text it may fail or not, and the caller falls back.
- Of expressions: := outside a block statement, lambdas, partial application and tail calls, %, focus and index bindings, transforms, $eval, object constructors, grouping, sorting, wildcards and descendants, regular expressions, ranges, the [] suffix, array constructors as path steps and calls as filter bases. Operators other than and, or, ?? and ?:, the negation of a defined value, the builtins, and how a number reads as a position are parameters of the evaluator; the lookup of what a builtin reads of its context is one of the analysis.
- Limits on the length of sequences, on nesting and on time, and cancellation.
- Tuple streams, ancestors, and the marks that keep raw, constructed and kept arrays apart.
- Values gjson returns are syntax trees read from the document; duplicate keys are not modelled where an object is both decoded and looked up in raw text.
- Values that contain themselves in the printer, which reports them, and text that is not valid JSON in the path walk, which gjson splits.
- Printing float64 numbers, reflection over Go types in the printer, and indentation; a number is a literal.
- Decimal arithmetic beyond parsing, and the printing of decimals.
- Date pictures beyond the match itself, and the word parser of dates.
- Hit and miss metrics hooks, and the values fast paths compute, beyond the path walk.
