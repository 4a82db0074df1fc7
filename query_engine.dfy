/**
 * Name resolution over a project index (aptos_move_analyzer/query_engine.py):
 * simple and `::`-qualified function queries, module function lists, and the
 * assembly of a query result.
 */
module QueryEngine {
  import opened Options
  import opened OrderedMaps
  import opened Text
  import opened MoveTypes
  import opened CallExtractor
  import opened IndexMerge

  /** `_assemble_function_result`: the record found, with the calls `extract_calls`
      reports for it. */
  function Assemble(fi: FunctionInfo, index: ProjectIndex): (q: QueryResult)
    ensures q.functionInfo == fi
    ensures q.calls == []
  {
    QueryResult(fi, ExtractCalls(fi, index))
  }

  /** `_query_simple_function`: the first function listed under the name. */
  function QuerySimple(index: ProjectIndex, name: string): (r: Option<QueryResult>)
    ensures r.None? <==> Lookup(index.functions, name) == []
    ensures r.Some? ==> r.value.functionInfo == Lookup(index.functions, name)[0]
  {
    var matching := Lookup(index.functions, name);
    if matching == [] then None else Some(Assemble(matching[0], index))
  }

  /** The target of a qualified name, as `(module, function)`: with two pieces the
      first is the module; with more, the module is all pieces but the last joined
      again with `::`. None when the name has no `::`, which `query_function` never
      passes on. The contract allows more than one cut of a name with a run of three
      or more colons; the body cuts as `str.split` does, leftmost `::` first, so
      "a:::b" targets ("a", ":b") (`Text.SplitLeftmost`). */
  function QualifiedTarget(qualifiedName: string): (r: Option<(string, string)>)
    ensures r.None? <==> !HasSep(qualifiedName)
    ensures r.Some? ==> r.value.0 + "::" + r.value.1 == qualifiedName
    ensures r.Some? ==> !HasSep(r.value.1)
  {
    var parts := Split(qualifiedName);
    if |parts| < 2 then None
    else
      SplitLastPiece(qualifiedName);
      if |parts| == 2 then Some((parts[0], parts[1]))
      else Some((Join(parts[..|parts| - 1]), parts[|parts| - 1]))
  }

  /** `_query_qualified_function`: the first function listed under the target name
      whose module name or module key is the target module. */
  function QueryQualified(index: ProjectIndex, qualifiedName: string): (r: Option<QueryResult>)
    ensures r.Some? ==> HasSep(qualifiedName)
    ensures HasSep(qualifiedName) ==>
              var (m, f) := QualifiedTarget(qualifiedName).value;
              var cands := Lookup(index.functions, f);
              && (r.None? <==> forall i :: 0 <= i < |cands| ==> !InModule(cands[i], m))
              && (r.Some? ==> exists i :: 0 <= i < |cands| && cands[i] == r.value.functionInfo && InModule(cands[i], m)
                                          && forall j :: 0 <= j < i ==> !InModule(cands[j], m))
  {
    match QualifiedTarget(qualifiedName)
    case None => None
    case Some((targetModule, targetFunction)) =>
      var matching := Lookup(index.functions, targetFunction);
      if matching == [] then None
      else
        match FirstInModule(matching, targetModule)
        case Some(i) => Some(Assemble(matching[i], index))
        case None => None
  }

  /** `query_function`: a name containing `::` is looked up qualified, any other
      name simply. */
  function QueryFunction(index: ProjectIndex, name: string): (r: Option<QueryResult>)
    ensures r.Some? ==> r.value.calls == []
    ensures !HasSep(name) ==> (r.None? <==> Lookup(index.functions, name) == [])
    ensures !HasSep(name) && r.Some? ==> r.value.functionInfo == Lookup(index.functions, name)[0]
    ensures HasSep(name) ==>
              var (m, f) := QualifiedTarget(name).value;
              var cands := Lookup(index.functions, f);
              && (r.None? <==> forall i :: 0 <= i < |cands| ==> !InModule(cands[i], m))
              && (r.Some? ==> exists i :: 0 <= i < |cands| && cands[i] == r.value.functionInfo && InModule(cands[i], m)
                                          && forall j :: 0 <= j < i ==> !InModule(cands[j], m))
  {
    if HasSep(name) then QueryQualified(index, name) else QuerySimple(index, name)
  }

  /** The position of the first module whose name is `name`. */
  function FirstNamed(ms: seq<ModuleInfo>, name: string): (r: Option<nat>)
    ensures r.Some? ==> r.value < |ms| && ms[r.value].moduleName == name
    ensures r.Some? ==> forall j :: 0 <= j < r.value ==> ms[j].moduleName != name
    ensures r.None? <==> forall j :: 0 <= j < |ms| ==> ms[j].moduleName != name
  {
    if ms == [] then None
    else
      match FirstNamed(ms[..|ms| - 1], name)
      case Some(i) => Some(i)
      case None => if ms[|ms| - 1].moduleName == name then Some(|ms| - 1) else None
  }

  /** `query_module_functions`: the functions of the module stored under that key;
      failing that, of the first module in key order with that name; failing that,
      none. */
  function QueryModuleFunctions(index: ProjectIndex, moduleName: string): (r: seq<FunctionInfo>)
    ensures index.modules.Get(moduleName).Some? ==> r == index.modules.Get(moduleName).value.functions
    ensures var items := index.modules.items;
            index.modules.Get(moduleName).None? && (exists i :: 0 <= i < |items| && items[i].1.moduleName == moduleName) ==>
              exists i :: 0 <= i < |items| && items[i].1.moduleName == moduleName && r == items[i].1.functions
                          && forall j :: 0 <= j < i ==> items[j].1.moduleName != moduleName
    ensures var items := index.modules.items;
            index.modules.Get(moduleName).None? && (forall i :: 0 <= i < |items| ==> items[i].1.moduleName != moduleName) ==>
              r == []
  {
    match index.modules.Get(moduleName)
    case Some(m) => m.functions
    case None =>
      var mods := index.modules.Values();
      match FirstNamed(mods, moduleName)
      case Some(i) => mods[i].functions
      case None => []
  }

  // ----- properties of the lookups -----

  /** A qualified name built from a prefix and a colon-free function name targets
      exactly that prefix and that name. */
  lemma TargetOfQualified(p: string, name: string)
    requires NoColon(name)
    requires p == [] || p[|p| - 1] != ':'
    ensures QualifiedTarget(p + "::" + name) == Some((p, name))
  {
    var q := p + "::" + name;
    SplitAppendName(p, name);
    var parts := Split(q);
    assert parts[..|parts| - 1] == Split(p);
    JoinSplit(p);
    if |Split(p)| == 1 {
      assert !HasSep(p);
      assert Split(p) == [p];
    }
  }

  /** A function of the index is found by its simple name when that name has no `::`:
      the result is the first function listed under the name, which has that name. */
  lemma SimpleQueryFinds(index: ProjectIndex, fi: FunctionInfo)
    requires FunctionsKeyed(index.functions)
    requires fi in Lookup(index.functions, fi.name)
    requires !HasSep(fi.name)
    ensures QueryFunction(index, fi.name).Some?
    ensures QueryFunction(index, fi.name).value.functionInfo.name == fi.name
  {
    LookupKeyed(index.functions, fi.name);
  }

  /** The functions listed under a name all carry that name. */
  lemma LookupKeyed(fm: OrderedMap<seq<FunctionInfo>>, name: string)
    requires FunctionsKeyed(fm)
    ensures forall k :: 0 <= k < |Lookup(fm, name)| ==> Lookup(fm, name)[k].name == name
  {
    if fm.Get(name).Some? {
      var j :| 0 <= j < |fm.items| && fm.items[j] == (name, fm.Get(name).value);
    }
  }

  /** A function of the index is found by its module name or module key followed by
      `::` and its name: the result is the first function of that name in that
      module. */
  lemma QualifiedQueryFinds(index: ProjectIndex, fi: FunctionInfo, p: string)
    requires FunctionsKeyed(index.functions)
    requires fi in Lookup(index.functions, fi.name)
    requires p == fi.moduleName || p == FunctionModuleKey(fi)
    requires p == [] || p[|p| - 1] != ':'
    requires NoColon(fi.name)
    ensures var r := QueryFunction(index, p + "::" + fi.name);
            && r.Some?
            && r.value.functionInfo.name == fi.name
            && InModule(r.value.functionInfo, p)
  {
    var q := p + "::" + fi.name;
    assert SepAt(q, |p|);
    TargetOfQualified(p, fi.name);
    LookupKeyed(index.functions, fi.name);
    var cands := Lookup(index.functions, fi.name);
    var k :| 0 <= k < |cands| && cands[k] == fi;
    assert InModule(cands[k], p);
  }

  /** `_find_call_location` with a module path finds the file of the very function that
      querying `path::name` returns, and nothing when that query finds nothing. */
  lemma CallLocationAgreesWithQuery(index: ProjectIndex, name: string, path: string)
    requires path != "" && path[|path| - 1] != ':'
    requires NoColon(name)
    ensures FindCallLocation(name, Some(path), index)
            == match QueryFunction(index, path + "::" + name)
               case Some(q) => Some(q.functionInfo.filePath)
               case None => None
  {
    var q := path + "::" + name;
    assert SepAt(q, |path|);
    TargetOfQualified(path, name);
  }

  /** `_find_call_location` without a module path finds the file of the function that
      the simple query for the name returns. */
  lemma UnqualifiedCallLocationAgreesWithQuery(index: ProjectIndex, name: string)
    requires !HasSep(name)
    ensures FindCallLocation(name, None, index)
            == match QueryFunction(index, name)
               case Some(q) => Some(q.functionInfo.filePath)
               case None => None
  {
  }

  /** The callee string the extractor builds for a call with a module path is read
      back by the qualified lookup as that module path and function name. */
  lemma CalledFunctionParsesBack(callNode: SyntaxTree.Node, caller: FunctionInfo, index: ProjectIndex, text: string,
                                 nameOf: (SyntaxTree.Node, string) -> (string, Option<string>))
    requires CallInfoOf(callNode, caller, index, text, nameOf).Some?
    requires Truthy(nameOf(callNode, text).1)
    requires NoColon(nameOf(callNode, text).0)
    requires var path := nameOf(callNode, text).1.value; path[|path| - 1] != ':'
    ensures var c := CallInfoOf(callNode, caller, index, text, nameOf).value;
            QualifiedTarget(c.calledFunction) == Some((c.calledModule, nameOf(callNode, text).0))
  {
    TargetOfQualified(nameOf(callNode, text).1.value, nameOf(callNode, text).0);
  }

  // ----- lookups over a merged index -----

  /** The index `_build_index` produces from the given per-file results. */
  function IndexOf(projectPath: string, packageName: string, rs: seq<FileResult>, dependencies: seq<DependencyInfo>): ProjectIndex
  {
    var st := MergeAll(rs, EmptyMerged());
    ProjectIndex(projectPath, packageName, st.modules, st.functions, dependencies)
  }

  /** On a merged index, a simple query returns the earliest-scanned function of
      that name, and nothing when no file that did not raise defines one. */
  lemma SimpleQueryOfIndex(projectPath: string, packageName: string, rs: seq<FileResult>,
                           dependencies: seq<DependencyInfo>, name: string)
    requires !HasSep(name)
    ensures var r := QueryFunction(IndexOf(projectPath, packageName, rs, dependencies), name);
            && (r.None? <==> SameName(AllFunctions(rs), name) == [])
            && (r.Some? ==> r.value.functionInfo == SameName(AllFunctions(rs), name)[0])
  {
    IndexFunctions(rs, name);
  }

  /** On a merged index, the functions listed for a module key are those of the last
      module stored under that key: its own file's functions with its name. */
  lemma ModuleQueryOfIndex(projectPath: string, packageName: string, rs: seq<FileResult>,
                           dependencies: seq<DependencyInfo>, key: string, i: nat)
    requires LastWithKey(AllEntries(rs), key) == Some(i)
    ensures QueryModuleFunctions(IndexOf(projectPath, packageName, rs, dependencies), key) == AllEntries(rs)[i].functions
  {
    IndexModules(rs, key);
  }
}
