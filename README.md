# Move function call graph analyzer — a Dafny model of its indexer and query engine

The analyzer reads an Aptos Move package and builds a project index. Each
`.move` file is parsed with tree-sitter. Its module definitions and function
definitions are pulled out of the syntax tree into `ModuleInfo` and
`FunctionInfo` records. The records from all files are merged into two maps:
modules keyed by `address::name` (or just the name), and function records
keyed by simple name. The query engine then answers lookups against these
maps: a plain name, `module::fn` or `address::module::fn`, and a module's
function list. It assembles the result, which can be rendered as JSON.

This project models that core in Dafny:

- `options.dfy`: `Option`.
- `text.dfy`: the string operations the core relies on.
  - clamped slicing;
  - line numbers from newline counts;
  - `str.strip`;
  - `::` detection, `split('::')` and `'::'.join`.
- `syntax_tree.dfy`: the syntax tree as a value.
  - A `Node` has a kind, a byte range and its children.
  - Preorder traversal.
  - Selection of children or descendants by kind.
- `ordered_map.dfy`: a Python `dict` / JavaScript `Map` as an insertion-ordered association list.
  - Assignment keeps a key's position.
  - A new key goes at the end.
- `move_types.dfy`: the records of `types.py`, the module key, module matching, and `QueryResult.to_json` as a small JSON value.
- `indexer.dfy`: per-file extraction in `indexer.py`.
  - `_extract_modules` and `_parse_module`.
  - `_extract_functions` with its module context.
  - `_parse_function` and `_parse_parameters`.
  - Each loop of the source is an imperative method.
  - Each method is proved equal to a specification function.
  - The lemmas state what those functions mean.
- `index_merge.dfy`: `_build_index` and `index_project`.
  - The per-file results are merged into the module map and the function multimap.
  - The merge loop is a method proved equal to a fold.
  - Lemmas describe the fold's outcome:
    - the last module under a key wins;
    - function lists are in scan order;
    - no function is lost;
    - a file that raised changes nothing;
    - both maps stay keyed consistently.
- `ts_indexer.dfy`: `buildIndex` of the TypeScript port (`indexer/src/indexer.ts`).
  - It is proved to compute the same merge as the Python `_build_index`.
- `call_extractor.dfy`: `call_extractor.py`.
  - body lookup;
  - the call-node traversal, as an imperative method;
  - call classification;
  - `CallInfo` assembly;
  - call-site file location.
- `query_engine.dfy`: `query_engine.py`.
  - simple and qualified queries;
  - module function lists;
  - lemmas that tie queries to the index the merge builds;
  - lemmas that tie queries to the call extractor's resolution.

## Inputs in place of I/O

The model receives as parameters what the source obtains from the outside:

- Each `.move` file arrives as a `SourceFile`.
  - It holds its path and, when reading and parsing succeeded, the text and the tree-sitter root node.
  - `parsed == None` stands for a file whose reading or parsing raised.
- The TypeScript port receives per-file `FileResult`s: `Failed` when `parseFile`/`extract*` threw.
- `index_project` receives the package name and dependency list from `_parse_move_toml`.
  - It also receives the list of files found by `_scan_move_files`.
- `_extract_function_name` is passed to `CallInfoOf` as the function parameter `nameOf`.
  - `StubFunctionName` is that method as written: it returns no name and no path.

## Model

| member | source | states |
|---|---|---|
| OrderedMaps.OrderedMap.Get | aptos_move_analyzer/query_engine.py:38 | `dict.get`: nothing exactly when no entry has the key, otherwise a value stored under that key |
| OrderedMaps.OrderedMap.Set | aptos_move_analyzer/indexer.py:170 | dict assignment: the key then maps to the new value and every other key keeps its value; a new key joins the key order at the end and an existing key keeps its place; distinct keys stay distinct; no entry other than the new one appears |
| OrderedMaps.OrderedMap.SetTwice | aptos_move_analyzer/indexer.py:174-176 | assigning a key twice is the same as assigning it the second value once |
| OrderedMaps.OrderedMap.Values | aptos_move_analyzer/query_engine.py:92 | `values()` lists the stored values in key insertion order |
| OrderedMaps.Empty | aptos_move_analyzer/indexer.py:148-149 | the fresh dict has no keys and maps every key to nothing |
| Text.Slice | aptos_move_analyzer/indexer.py:285 | Python slicing clamps: `text[lo:hi]` is the exact substring when both bounds are in range, the rest of the text from `lo` when only `hi` is past the end, empty when `lo` is at or past the end or the bounds cross, and never longer than the text |
| Text.CountNewlinesAppend | aptos_move_analyzer/indexer.py:286-287 | newline counts add up over concatenation |
| Text.LineAt | aptos_move_analyzer/indexer.py:286-287 | the line of an offset is at least 1, at most one more than the offset, and at most one more than the text's length |
| Text.LineAtMonotone | aptos_move_analyzer/indexer.py:286-287 | a later offset never lies on an earlier line, so a function's start line is at most its end line |
| Text.Strip | aptos_move_analyzer/indexer.py:282 | `str.strip`: the result is the text that follows the leading whitespace run, followed by nothing but whitespace, and it neither starts nor ends with whitespace |
| Text.FirstSep | aptos_move_analyzer/query_engine.py:29 | the first position of `::`; none exactly when the name contains no `::` |
| Text.Split | aptos_move_analyzer/query_engine.py:49 | `split('::')` gives at least one piece, two or more exactly when the name contains `::`, and the last piece contains no `::` |
| Text.JoinSplit | aptos_move_analyzer/query_engine.py:49-60 | joining the pieces of `split('::')` with `::` gives back the original name |
| Text.JoinSnoc | aptos_move_analyzer/query_engine.py:58-60 | all pieces but the last, joined, then `::` and the last piece, is the whole join |
| Text.SplitAppendName | aptos_move_analyzer/query_engine.py:49 | splitting `prefix::name` for a colon-free name whose prefix does not end in `:` gives the prefix's pieces followed by the name |
| Text.SplitLastPiece | aptos_move_analyzer/query_engine.py:55-60 | all pieces of a split but the last, joined, then `::` and the last piece give back the name; with two pieces the first piece is that join |
| Text.SplitLeftmost | aptos_move_analyzer/query_engine.py:49 | `split('::')` cuts at the leftmost `::` of a run of colons: `a:::b` gives `a` and `:b` |
| SyntaxTree.Preorder | aptos_move_analyzer/call_extractor.py:49-56 | the recursive traversal visits the node itself first |
| SyntaxTree.ChildSubtreeInPreorder | aptos_move_analyzer/call_extractor.py:53-54 | every node below a child is visited by the traversal from the parent |
| SyntaxTree.FilterKinds | aptos_move_analyzer/indexer.py:208 | selecting nodes by type keeps only nodes of those types and never adds nodes |
| SyntaxTree.FilterKindsAppend | aptos_move_analyzer/indexer.py:188-195 | selection by type distributes over concatenation, so the traversal's matches are the node's then each child's in order |
| SyntaxTree.FilterKindsMembership | aptos_move_analyzer/indexer.py:208 | a node is selected exactly when it is in the input and of one of the types |
| SyntaxTree.AnyOfKind | aptos_move_analyzer/call_extractor.py:85 | `any(child.type == k ...)` holds exactly when some child has that type |
| SyntaxTree.FirstOfKinds | aptos_move_analyzer/indexer.py:261-264 | the loop with `break` picks the first child of the types, and none when no child has them |
| SyntaxTree.LastOfKinds | aptos_move_analyzer/indexer.py:312-316 | a loop that reassigns on every match keeps the last child of the types, and none when no child has them |
| MoveTypes.NewModuleInfo | aptos_move_analyzer/types.py:57-65 | a module record starts with the given name, address and file and no functions, structs or constants |
| MoveTypes.NewDependencyInfo | aptos_move_analyzer/types.py:68-73 | a dependency starts with no version and no path |
| MoveTypes.ModuleKey | aptos_move_analyzer/indexer.py:169 | without an address the key is the module name; with one it is the address, `::` and the name |
| MoveTypes.FirstInModule | aptos_move_analyzer/query_engine.py:69-75 | the first candidate whose module name or module key is the target, and none exactly when no candidate matches |
| MoveTypes.ParameterJson | aptos_move_analyzer/types.py:103-106 | a parameter renders as an object with exactly the keys `name` and `type`, in that order, holding its name and type |
| MoveTypes.CallFile | aptos_move_analyzer/types.py:109 | a call's file renders as the empty string exactly when it is unresolved or empty, and as the path otherwise |
| MoveTypes.CallJson | aptos_move_analyzer/types.py:108-112 | a call renders as an object with exactly the keys `file`, `function` and `module`, in that order, holding its file, callee and module |
| MoveTypes.LocationJson | aptos_move_analyzer/types.py:98-102 | the location renders as an object with exactly the keys `file`, `start_line` and `end_line`, in that order, holding the function's file and lines |
| MoveTypes.ToJson | aptos_move_analyzer/types.py:92-115 | `to_json` is an object with exactly the keys `contract`, `function`, `source`, `location`, `parameter`, `calls`, in that order (no address key): `contract` = module name, `function` = `module::name`, the source text, the location, one `parameter` entry per parameter and one `calls` entry per call |
| MoveTypes.ParametersJson | aptos_move_analyzer/types.py:103-106 | the parameter list renders element by element, in order |
| MoveTypes.CallsJson | aptos_move_analyzer/types.py:107-114 | the call list renders element by element, in order |
| MoveTypes.DecodeParametersOfEncoded | aptos_move_analyzer/types.py:103-106 | decoding the rendered parameter list gives back the parameters |
| MoveTypes.ToJsonParametersRoundTrip | aptos_move_analyzer/types.py:103-106 | the `parameter` field of `to_json` decodes back to the function's parameters |
| MoveTypes.ToJsonCalls | aptos_move_analyzer/types.py:107-114 | the `calls` field has one entry per call, with that call's file, function and module |
| Indexer.IdentityFoldNoIdentity | aptos_move_analyzer/indexer.py:205-206 | children that are not `module_identity` leave the name and address unchanged |
| Indexer.SingleIdentity | aptos_move_analyzer/indexer.py:205-213 | for a module with one identity child: two or more identifiers give address and name; exactly one gives the name and keeps the starting address; none changes nothing |
| Indexer.ReadModuleIdentity | aptos_move_analyzer/indexer.py:205-213 | the identity loop computes the fold of the identity reading over the children |
| Indexer.ModuleOf | aptos_move_analyzer/indexer.py:200-219 | a parsed module carries its file and no functions, structs or constants |
| Indexer.ParseModule | aptos_move_analyzer/indexer.py:200-219 | `_parse_module` reads the identity starting from empty name and address |
| Indexer.ParameterOf | aptos_move_analyzer/indexer.py:309-319 | a parameter is kept exactly when its last identifier has non-empty text, and a kept parameter has a non-empty name |
| Indexer.CollectParameters | aptos_move_analyzer/indexer.py:307-319 | at most one parameter per `function_parameter` child, each with a non-empty name |
| Indexer.CollectParametersAppend | aptos_move_analyzer/indexer.py:307-319 | the parameters of concatenated child lists are the concatenated parameters |
| Indexer.ParseParameters | aptos_move_analyzer/indexer.py:303-321 | the nested loops compute the parameters of the `function_parameters` node |
| Indexer.ReadParameter | aptos_move_analyzer/indexer.py:309-316 | the inner loop keeps the text of the last identifier child as the name and of the last type child as the type, empty when there is none |
| Indexer.Visibility | aptos_move_analyzer/indexer.py:266-272 | `public` exactly when some child is `public`, `private` exactly when none is |
| Indexer.ModifiersOf | aptos_move_analyzer/indexer.py:266-272 | modifiers are only `entry`, `inline`, `native`; each appears exactly when such a child exists; never more modifiers than children |
| Indexer.FunctionNameOf | aptos_move_analyzer/indexer.py:260-264 | the name is the text of the first identifier child, empty when there is none |
| Indexer.FunctionOf | aptos_move_analyzer/indexer.py:252-301 | a function record carries the module context, its file, its source text, start and end lines from newline counts, a start line of at least 1 and no later than the end line |
| Indexer.ReadName | aptos_move_analyzer/indexer.py:260-264 | the loop with `break` computes the function name |
| Indexer.ReadVisibility | aptos_move_analyzer/indexer.py:266-272 | the loop computes the visibility and the modifier list |
| Indexer.ReadParameters | aptos_move_analyzer/indexer.py:274-277 | the loop keeps the parameters of the last `function_parameters` child |
| Indexer.ReadReturnType | aptos_move_analyzer/indexer.py:279-282 | the loop keeps the stripped text of the last `ret_type` child, none without one |
| Indexer.ParseFunction | aptos_move_analyzer/indexer.py:252-301 | `_parse_function` computes the function record of the node under the given module context |
| Indexer.VisitModule | aptos_move_analyzer/indexer.py:189-192 | the node itself is recorded exactly when it is a module definition |
| Indexer.CollectModules | aptos_move_analyzer/indexer.py:188-195 | the recursive traversal appends the records of the module definitions of the subtree, in preorder |
| Indexer.ExtractModules | aptos_move_analyzer/indexer.py:184-198 | one module record per `module_definition` node, in preorder, each with the file and no functions |
| Indexer.VisitFunctionNode | aptos_move_analyzer/indexer.py:230-244 | visiting one node updates the context from a module definition and records a function definition, as one step of the walk |
| Indexer.WalkAppend | aptos_move_analyzer/indexer.py:227-247 | visiting two node lists in turn is visiting their concatenation |
| Indexer.WalkExtends | aptos_move_analyzer/indexer.py:241-244 | the walk only appends: one record per function definition, earlier records unchanged |
| Indexer.WalkKeepsScope | aptos_move_analyzer/indexer.py:230-239 | nodes that are not module definitions leave the module context unchanged |
| Indexer.ScopeFromLastModule | aptos_move_analyzer/indexer.py:224-239 | the context at a node comes from the most recent module definition before it; it is never reset when a module ends |
| Indexer.WalkTagsFunction | aptos_move_analyzer/indexer.py:241-247 | a function definition is recorded after those before it, under the context reached just before it |
| Indexer.FunctionsInPreorder | aptos_move_analyzer/indexer.py:221-250 | `_extract_functions` returns one record per function definition; the k-th record is the k-th definition in preorder, tagged with the context current there |
| Indexer.AddressCarriesOver | aptos_move_analyzer/indexer.py:232-239 | a module whose identity has a single identifier tags its functions with the address left by an earlier module, while its own record has an empty address |
| Indexer.CollectFunctions | aptos_move_analyzer/indexer.py:227-247 | the recursive traversal computes the walk over the subtree's preorder, handing back the context and the function list |
| Indexer.ExtractFunctions | aptos_move_analyzer/indexer.py:221-250 | one record per function definition, in preorder, all with the file |
| Indexer.WalkFilePath | aptos_move_analyzer/indexer.py:242 | every function the walk records carries the file being indexed |
| IndexMerge.ExtractAll | aptos_move_analyzer/indexer.py:151-162 | each file's outcome, in scan order |
| IndexMerge.SameModule | aptos_move_analyzer/indexer.py:166 | the functions attached to a module all carry its name |
| IndexMerge.SameModuleMembership | aptos_move_analyzer/indexer.py:166 | a function is attached exactly when it is in the file and carries the module's name |
| IndexMerge.ModuleEntry | aptos_move_analyzer/indexer.py:165-167 | the stored module keeps its name, address, file, structs and constants, and gets only functions of its name |
| IndexMerge.EntryFunctions | aptos_move_analyzer/indexer.py:166-167 | a stored module's functions are exactly the file's functions with its name, in file order |
| IndexMerge.Entries | aptos_move_analyzer/indexer.py:165-167 | one stored module per module of the file, in order |
| IndexMerge.LastWithKey | aptos_move_analyzer/indexer.py:169-170 | the last module with a given key, or none when no module has it |
| IndexMerge.AddEntriesAppend | aptos_move_analyzer/indexer.py:165-170 | storing two module lists in turn is storing their concatenation |
| IndexMerge.AddEntriesGet | aptos_move_analyzer/indexer.py:165-170 | after storing a list of modules, a key holds the last module with that key, or what it held before when none had it |
| IndexMerge.AddEntriesKeyed | aptos_move_analyzer/indexer.py:169-170 | every key of the module map is the key of the module stored under it, and keys stay distinct |
| IndexMerge.AddFunction | aptos_move_analyzer/indexer.py:174-176 | adding a function appends it to its name's list and leaves every other name's list alone |
| IndexMerge.AddFunctionsAppend | aptos_move_analyzer/indexer.py:173-176 | adding two function lists in turn is adding their concatenation |
| IndexMerge.SameName | aptos_move_analyzer/indexer.py:173-176 | the functions of a given name, all with that name |
| IndexMerge.SameNameMembership | aptos_move_analyzer/indexer.py:173-176 | a function is among those listed for a name exactly when it was added and has that name |
| IndexMerge.SameNameAppend | aptos_move_analyzer/indexer.py:173-176 | the functions of a name from two lists in turn are those of their concatenation, in order |
| IndexMerge.AddFunctionsLookup | aptos_move_analyzer/indexer.py:173-176 | after adding a list of functions, a name's list is its old list followed by the added functions of that name, in order |
| IndexMerge.AddFunctionTotal | aptos_move_analyzer/indexer.py:174-176 | adding a function adds exactly one entry to the multimap |
| IndexMerge.AddFunctionsTotal | aptos_move_analyzer/indexer.py:173-176 | adding a list of functions adds exactly that many entries: none lost, none duplicated |
| IndexMerge.AddFunctionsKeyed | aptos_move_analyzer/indexer.py:173-176 | every function listed under a name has that name, and names stay distinct |
| IndexMerge.EmptyMerged | aptos_move_analyzer/indexer.py:148-149 | both maps start empty and consistently keyed |
| IndexMerge.MergeAllAppend | aptos_move_analyzer/indexer.py:151-180 | merging two file lists in turn is merging their concatenation |
| IndexMerge.FailedFileSkipped | aptos_move_analyzer/indexer.py:178-180 | a file that raised leaves the index exactly as if it had not been scanned |
| IndexMerge.MergeAllIs | aptos_move_analyzer/indexer.py:151-180 | the merge stores all modules of the successful files in scan order, and adds all their functions in scan order |
| IndexMerge.IndexModules | aptos_move_analyzer/indexer.py:165-170 | in the finished index a key holds the module scanned last under that key, and nothing when none has it: collisions are overwritten silently |
| IndexMerge.IndexFunctions | aptos_move_analyzer/indexer.py:173-176 | in the finished index a name lists every scanned function of that name, in scan order |
| IndexMerge.IndexTotal | aptos_move_analyzer/indexer.py:173-176 | the finished multimap holds exactly as many entries as functions were extracted from successful files |
| IndexMerge.IndexKeyed | aptos_move_analyzer/indexer.py:146-182 | the finished maps are consistently keyed |
| IndexMerge.AppendFunction | aptos_move_analyzer/indexer.py:174-176 | creating the list on first sight and then appending is adding the function |
| IndexMerge.StoreModules | aptos_move_analyzer/indexer.py:165-170 | the module loop stores each module of the file, with its functions attached, under its key, in order |
| IndexMerge.StoreFunctions | aptos_move_analyzer/indexer.py:173-176 | the function loop adds each function of the file to its name's list, in order |
| IndexMerge.MergeSourceFile | aptos_move_analyzer/indexer.py:151-180 | one iteration of the file loop merges that file's outcome into the maps; a file that raised changes nothing |
| IndexMerge.BuildIndex | aptos_move_analyzer/indexer.py:146-182 | `_build_index` computes the merge of every file's outcome, in scan order, from empty maps |
| IndexMerge.IndexProject | aptos_move_analyzer/indexer.py:73-81 | the index carries the project path, package name and dependencies and the merged maps |
| TsIndexer.BuildIndex | indexer/src/indexer.ts:161-227 | the TypeScript `buildIndex` computes the same merge as the Python one and returns it with its inputs |
| TsIndexer.PushFunctions | indexer/src/indexer.ts:207-211 | the function loop, reading the list or a new empty one, pushing the function and storing it back, adds each function to its name's list in order |
| CallExtractor.FindFunctionBody | aptos_move_analyzer/call_extractor.py:38-43 | the first `block` or `expression_list` child, none exactly when there is no such child |
| CallExtractor.VisitCall | aptos_move_analyzer/call_extractor.py:50-51 | the node is recorded exactly when it is a call node |
| CallExtractor.CollectCalls | aptos_move_analyzer/call_extractor.py:49-54 | the recursive traversal appends the call nodes of the subtree, in preorder |
| CallExtractor.FindCallExpressions | aptos_move_analyzer/call_extractor.py:45-57 | the call nodes of the tree in preorder; a node is found exactly when it is in the tree and is a call node |
| CallExtractor.NestedCallFound | aptos_move_analyzer/call_extractor.py:49-56 | a call nested anywhere below the node, arguments of other calls included, is found |
| CallExtractor.CallTypeOf | aptos_move_analyzer/call_extractor.py:79-90 | `receiver` exactly for receiver calls; `qualified` exactly for other calls with a `name_access_chain` child; `direct` exactly for the rest |
| CallExtractor.FindCallLocation | aptos_move_analyzer/call_extractor.py:97-113 | no file for an unknown name; with a module path, the file of the first candidate in that module, and none exactly when no candidate is in it; without one, the first candidate's file |
| CallExtractor.CallInfoOf | aptos_move_analyzer/call_extractor.py:59-77 | no call for an empty name; otherwise callee `path::name` or `name`, module the path or else the caller's, file from the location lookup, call type from the node |
| CallExtractor.StubYieldsNoCalls | aptos_move_analyzer/call_extractor.py:92-95 | with `_extract_function_name` as written, no call site yields a `CallInfo` |
| QueryEngine.Assemble | aptos_move_analyzer/query_engine.py:99-106 | the result carries the function found and the (empty) call list |
| QueryEngine.QuerySimple | aptos_move_analyzer/query_engine.py:36-45 | nothing exactly when the name lists no function; otherwise the first function listed |
| QueryEngine.QualifiedTarget | aptos_move_analyzer/query_engine.py:49-60 | a name with `::` splits into a module part and a `::`-free function part that rejoin to the name; a name without `::` has no target |
| QueryEngine.QueryQualified | aptos_move_analyzer/query_engine.py:47-75 | the first function listed under the target name whose module name or key is the target module; nothing exactly when none is |
| QueryEngine.QueryFunction | aptos_move_analyzer/query_engine.py:16-34 | a name without `::`: nothing exactly when no function is listed under it, otherwise the first one listed; a name with `::`: the first function listed under the target name whose module name or key is the target module, and nothing exactly when none is; every result has no calls |
| QueryEngine.FirstNamed | aptos_move_analyzer/query_engine.py:92-94 | the first module with that name, none exactly when no module has it |
| QueryEngine.QueryModuleFunctions | aptos_move_analyzer/query_engine.py:77-97 | the functions of the module under that key; failing that, of the first module in key order with that name; failing that, none |
| QueryEngine.TargetOfQualified | aptos_move_analyzer/query_engine.py:49-60 | `prefix::name` targets exactly that prefix and that name |
| QueryEngine.SimpleQueryFinds | aptos_move_analyzer/query_engine.py:29-45 | an indexed function is found by its plain name, and the result has that name |
| QueryEngine.QualifiedQueryFinds | aptos_move_analyzer/query_engine.py:29-75 | an indexed function is found by `module::name` or `address::module::name`, and the result has that name and is in that module |
| QueryEngine.CallLocationAgreesWithQuery | aptos_move_analyzer/call_extractor.py:105-111 | a call's file with a module path is the file of the function the qualified query returns, and none when that query finds nothing |
| QueryEngine.UnqualifiedCallLocationAgreesWithQuery | aptos_move_analyzer/call_extractor.py:113 | a call's file without a module path is the file of the function the simple query returns |
| QueryEngine.CalledFunctionParsesBack | aptos_move_analyzer/call_extractor.py:68 | the callee string built for a call with a module path is read back by the qualified query as that path and that name |
| QueryEngine.SimpleQueryOfIndex | aptos_move_analyzer/query_engine.py:36-45 | on a merged index, a simple query returns the earliest-scanned function of that name, and nothing exactly when no successful file defines one |
| QueryEngine.ModuleQueryOfIndex | aptos_move_analyzer/query_engine.py:88-97 | on a merged index, a module key's function list is that of the module scanned last under the key |

## Behaviour of the code worth knowing

- Two modules with the same key: the one scanned last replaces the other silently (aptos_move_analyzer/indexer.py:169-170; `IndexMerge.IndexModules`).
- The module context of `_extract_functions` is two variables that are set at each `module_definition` and never reset (aptos_move_analyzer/indexer.py:224-239).
  - A function before the first `module_definition` is tagged with the initial empty module name and address (aptos_move_analyzer/indexer.py:224-225).
  - A function after the end of a module, or outside any module once one has been seen, is tagged with the last module seen (`Indexer.ScopeFromLastModule`).
  - A module whose identity has one identifier keeps the address of the previous module for its functions, while its own record has an empty address (aptos_move_analyzer/indexer.py:236-237, 205-213; `Indexer.AddressCarriesOver`).
- Visibility and modifiers are read from the function node's own children (aptos_move_analyzer/indexer.py:266-272; `Indexer.ModifiersOf`).
- `if module_info` and `if func_info` test dataclass instances, which are always true, so records with an empty name are kept (aptos_move_analyzer/indexer.py:191, 243).
  - Only a parameter with an empty name is dropped (aptos_move_analyzer/indexer.py:318; `Indexer.ParameterOf`).
- Nothing is sorted. Results follow scan order and key insertion order.
- A file whose reading or parsing raises is printed and skipped (aptos_move_analyzer/indexer.py:178-180; `IndexMerge.FailedFileSkipped`).
- `extract_calls` returns an empty list on both of its paths, and `_extract_function_name` returns no name, so every query result has no calls (aptos_move_analyzer/call_extractor.py:23-36, 92-95).

## Left out

- Tree-sitter parsing is not modelled. The syntax tree is an input value.
- Offsets are treated as character offsets.
  - The source slices a `str` by tree-sitter byte offsets.
  - The two agree only for ASCII text, so non-ASCII text is not modelled.
- File and directory I/O are not modelled: reading files, `os.walk` in `_scan_move_files`, `os.path.abspath` and the existence and directory checks in `index_project`.
  - Their results are inputs.
  - A file that cannot be read or parsed is `parsed == None`.
- `_parse_move_toml` is not modelled: its regular-expression parsing of `Move.toml` is text I/O. The package name and dependencies are inputs.
- `reindex_project` is not modelled. It only calls `index_project`.
- Printing errors to the console is not modelled.
- The command-line interfaces, the example scripts, `analyzer.py` and the `move_fcg_analyzer` package wrappers are not part of this model.
- The TypeScript parser, query engine and call extractor modules are not part of this model.
  - Only `buildIndex` of `indexer/src/indexer.ts` is modelled.
  - Its per-file extraction arrives as a `FileResult`.
- Struct and constant extraction are not modelled: the core never fills `structs` and `constants`, and the model carries them as empty lists.
- `extract_calls` opens the caller's file, which is not modelled. Both of its paths return the empty list, and so does the model.
- `_extract_function_name` is a parameter of `CallInfoOf`.
  - `StubFunctionName` is the placeholder as written.
  - A real name reader is not part of the source.
- `module.functions = ...` updates, in place, a record that `_extract_modules` returned. The model builds an updated record instead, because no other reference to that record is used afterwards.
- Python's recursion limit on deep trees is not modelled.
