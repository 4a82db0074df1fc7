/**
 * `ProjectIndexer.buildIndex` of the TypeScript indexer (indexer/src/indexer.ts).
 * Its parser module, which reads a file and extracts its modules and functions,
 * is not part of this model: each file arrives as the `FileResult` that parsing
 * and extraction produced, `Failed` when they threw. The merge loop is proved to
 * compute the same `MergeAll` as the Python `_build_index`.
 */
module TsIndexer {
  import opened OrderedMaps
  import opened MoveTypes
  import opened IndexMerge

  /** The function loop of `buildIndex`: the list under each function's name, or a
      new empty one, gets the function pushed and is stored back. */
  method PushFunctions(functions: OrderedMap<seq<FunctionInfo>>, fileFunctions: seq<FunctionInfo>)
    returns (r: OrderedMap<seq<FunctionInfo>>)
    ensures r == AddFunctions(functions, fileFunctions)
  {
    r := functions;
    var k := 0;
    while k < |fileFunctions|
      invariant 0 <= k <= |fileFunctions|
      invariant r == AddFunctions(functions, fileFunctions[..k])
    {
      AddFunctionsStep(functions, fileFunctions, k);
      var func := fileFunctions[k];
      var existingFunctions := Lookup(r, func.name);
      existingFunctions := existingFunctions + [func];
      r := r.Set(func.name, existingFunctions);
      k := k + 1;
    }
    assert fileFunctions[..k] == fileFunctions;
  }

  /** `buildIndex`: merge every file's modules and functions, then return them with
      the project path, package name and dependencies it was given. */
  method BuildIndex(projectPath: string, packageName: string, results: seq<FileResult>,
                    dependencies: seq<DependencyInfo>)
    returns (index: ProjectIndex)
    ensures index.projectPath == projectPath && index.packageName == packageName
    ensures index.dependencies == dependencies
    ensures Merged(index.modules, index.functions) == MergeAll(results, EmptyMerged())
  {
    var modules: OrderedMap<ModuleInfo> := Empty();
    var functions: OrderedMap<seq<FunctionInfo>> := Empty();
    var i := 0;
    while i < |results|
      invariant 0 <= i <= |results|
      invariant Merged(modules, functions) == MergeAll(results[..i], EmptyMerged())
    {
      assert results[..i + 1][..i] == results[..i];
      match results[i] {
        case Failed =>
          // The file threw: it is logged and skipped.
        case Extracted(fileModules, fileFunctions) =>
          // The module loop is the same as in `_build_index`.
          modules := StoreModules(modules, fileModules, fileFunctions);
          functions := PushFunctions(functions, fileFunctions);
      }
      i := i + 1;
    }
    assert results[..i] == results;
    index := ProjectIndex(projectPath, packageName, modules, functions, dependencies);
  }
}
