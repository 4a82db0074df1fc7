/**
 * The records the analyzer passes around (aptos_move_analyzer/types.py), the
 * module-key rule shared by the index and the lookups, and the JSON shape a
 * query result is serialised to.
 */
module MoveTypes {
  import opened Options
  import opened OrderedMaps

  datatype ParameterInfo = ParameterInfo(name: string, typ: string)

  /** One call site: what is called, from which module, where it is defined (None when
      unresolved) and how it is written ("direct", "qualified" or "receiver"). */
  datatype CallInfo = CallInfo(
    calledFunction: string,
    calledModule: string,
    calledFilePath: Option<string>,
    callType: string)

  datatype StructInfo = StructInfo(name: string, fields: seq<map<string, string>>, abilities: seq<string>)

  datatype ConstantInfo = ConstantInfo(name: string, typ: string, value: string)

  /** One extracted function. `visibility` is "public" or "private"; `modifiers`
      holds "entry", "inline" and "native" in the order they were written. */
  datatype FunctionInfo = FunctionInfo(
    name: string,
    moduleName: string,
    moduleAddress: string,
    filePath: string,
    startLine: nat,
    endLine: nat,
    sourceCode: string,
    parameters: seq<ParameterInfo>,
    returnType: Option<string>,
    visibility: string,
    modifiers: seq<string>)

  datatype ModuleInfo = ModuleInfo(
    moduleName: string,
    address: string,
    filePath: string,
    functions: seq<FunctionInfo>,
    structs: seq<StructInfo>,
    constants: seq<ConstantInfo>)

  datatype DependencyInfo = DependencyInfo(name: string, version: Option<string>, path: Option<string>)

  /** The project index: modules by module key (in insertion order), and every
      extracted function under its simple name. */
  datatype ProjectIndex = ProjectIndex(
    projectPath: string,
    packageName: string,
    modules: OrderedMap<ModuleInfo>,
    functions: OrderedMap<seq<FunctionInfo>>,
    dependencies: seq<DependencyInfo>)

  datatype QueryResult = QueryResult(functionInfo: FunctionInfo, calls: seq<CallInfo>)

  /** `ModuleInfo(module_name=..., address=..., file_path=...)`: the function,
      struct and constant lists default to empty. */
  function NewModuleInfo(moduleName: string, address: string, filePath: string): (m: ModuleInfo)
    ensures m.moduleName == moduleName && m.address == address && m.filePath == filePath
    ensures m.functions == [] && m.structs == [] && m.constants == []
  {
    ModuleInfo(moduleName, address, filePath, [], [], [])
  }

  /** `DependencyInfo(name=...)`: version and path default to None. */
  function NewDependencyInfo(name: string): (d: DependencyInfo)
    ensures d.name == name && d.version == None && d.path == None
  {
    DependencyInfo(name, None, None)
  }

  /** Python truthiness of an optional string: present and not empty. */
  predicate Truthy(s: Option<string>)
  {
    s.Some? && s.value != ""
  }

  /** The key of a module: `address::name` when the address is not empty,
      otherwise the bare name. */
  function ModuleKey(address: string, moduleName: string): (k: string)
    ensures address == "" ==> k == moduleName
    ensures address != "" ==> (&& |k| == |address| + 2 + |moduleName|
                               && k[..|address|] == address
                               && k[|address|..|address| + 2] == "::"
                               && k[|address| + 2..] == moduleName)
  {
    if address != "" then address + "::" + moduleName else moduleName
  }

  /** The key of the module a function was tagged with. */
  function FunctionModuleKey(f: FunctionInfo): string
  {
    ModuleKey(f.moduleAddress, f.moduleName)
  }

  /** The module test of the qualified lookups: `target` is the function's module
      name or its module key. */
  predicate InModule(f: FunctionInfo, target: string)
  {
    f.moduleName == target || FunctionModuleKey(f) == target
  }

  /** The position of the first function whose module test against `target`
      succeeds: the `for` loop with an early `return` of the qualified lookups. */
  function FirstInModule(fs: seq<FunctionInfo>, target: string): (r: Option<nat>)
    ensures r.Some? ==> r.value < |fs| && InModule(fs[r.value], target)
    ensures r.Some? ==> forall j :: 0 <= j < r.value ==> !InModule(fs[j], target)
    ensures r.None? <==> forall j :: 0 <= j < |fs| ==> !InModule(fs[j], target)
  {
    if fs == [] then None
    else
      match FirstInModule(fs[..|fs| - 1], target)
      case Some(i) => Some(i)
      case None => if InModule(fs[|fs| - 1], target) then Some(|fs| - 1) else None
  }

  /** `functions.get(name) or []`: the functions listed under a name. */
  function Lookup(fm: OrderedMap<seq<FunctionInfo>>, name: string): seq<FunctionInfo>
  {
    match fm.Get(name)
    case Some(v) => v
    case None => []
  }

  /** Every module is stored under its own key, and no key is stored twice. */
  predicate ModulesKeyed(modules: OrderedMap<ModuleInfo>)
  {
    && modules.DistinctKeys()
    && forall i :: 0 <= i < |modules.items| ==>
         modules.items[i].0 == ModuleKey(modules.items[i].1.address, modules.items[i].1.moduleName)
  }

  /** Every function is listed under its own simple name. */
  predicate FunctionsKeyed(functions: OrderedMap<seq<FunctionInfo>>)
  {
    && functions.DistinctKeys()
    && forall i, j :: 0 <= i < |functions.items| && 0 <= j < |functions.items[i].1| ==>
         functions.items[i].1[j].name == functions.items[i].0
  }

  // ----- the JSON shape of a query result -----

  /** A JSON value. An object lists its keys in the order the dict literal writes
      them, next to the map from key to value. */
  datatype Json =
    | JNull
    | JInt(i: int)
    | JString(s: string)
    | JArray(elems: seq<Json>)
    | JObject(keys: seq<string>, fields: map<string, Json>)

  /** `j[key]` on a JSON object. */
  function Field(j: Json, key: string): Option<Json>
  {
    if j.JObject? && key in j.fields then Some(j.fields[key]) else None
  }

  /** `j` is an object whose keys are exactly `ks`, written in that order. */
  ghost predicate HasKeys(j: Json, ks: seq<string>)
  {
    j.JObject? && j.keys == ks && forall k :: k in j.fields <==> k in ks
  }

  /** `{"name": ..., "type": ...}`. */
  function ParameterJson(p: ParameterInfo): (j: Json)
    ensures HasKeys(j, ["name", "type"])
    ensures Field(j, "name") == Some(JString(p.name)) && Field(j, "type") == Some(JString(p.typ))
  {
    JObject(["name", "type"], map["name" := JString(p.name), "type" := JString(p.typ)])
  }

  /** `call.called_file_path or ""`: an unresolved call's file is the empty string, never null. */
  function CallFile(c: CallInfo): (file: string)
    ensures file == "" <==> !Truthy(c.calledFilePath)
    ensures Truthy(c.calledFilePath) ==> file == c.calledFilePath.value
  {
    if Truthy(c.calledFilePath) then c.calledFilePath.value else ""
  }

  /** `{"file": ..., "function": ..., "module": ...}`. */
  function CallJson(c: CallInfo): (j: Json)
    ensures HasKeys(j, ["file", "function", "module"])
    ensures Field(j, "file") == Some(JString(CallFile(c)))
    ensures Field(j, "function") == Some(JString(c.calledFunction))
    ensures Field(j, "module") == Some(JString(c.calledModule))
  {
    JObject(["file", "function", "module"],
            map["file" := JString(CallFile(c)), "function" := JString(c.calledFunction), "module" := JString(c.calledModule)])
  }

  /** `{"file": ..., "start_line": ..., "end_line": ...}`. */
  function LocationJson(fi: FunctionInfo): (j: Json)
    ensures HasKeys(j, ["file", "start_line", "end_line"])
    ensures Field(j, "file") == Some(JString(fi.filePath))
    ensures Field(j, "start_line") == Some(JInt(fi.startLine))
    ensures Field(j, "end_line") == Some(JInt(fi.endLine))
  {
    JObject(["file", "start_line", "end_line"],
            map["file" := JString(fi.filePath), "start_line" := JInt(fi.startLine), "end_line" := JInt(fi.endLine)])
  }

  /** `QueryResult.to_json()`: "contract" is the module name, "function" is
      `module_name::name` (the address is left out), the location is copied, and
      "parameter" and "calls" follow the parameters and the calls one to one; there
      are exactly these six keys, in this order. */
  function ToJson(q: QueryResult): (j: Json)
    ensures HasKeys(j, ResultKeyOrder)
    ensures Field(j, "contract") == Some(JString(q.functionInfo.moduleName))
    ensures Field(j, "function") == Some(JString(q.functionInfo.moduleName + "::" + q.functionInfo.name))
    ensures Field(j, "source") == Some(JString(q.functionInfo.sourceCode))
    ensures Field(j, "location") == Some(LocationJson(q.functionInfo))
    ensures Field(j, "parameter") == Some(JArray(ParametersJson(q.functionInfo.parameters)))
    ensures Field(j, "calls") == Some(JArray(CallsJson(q.calls)))
  {
    var fi := q.functionInfo;
    var contractJ, functionJ, sourceJ := JString(fi.moduleName), JString(fi.moduleName + "::" + fi.name), JString(fi.sourceCode);
    var locationJ, parameterJ, callsJ := LocationJson(fi), JArray(ParametersJson(fi.parameters)), JArray(CallsJson(q.calls));
    ResultObjectKeys(contractJ, functionJ, sourceJ, locationJ, parameterJ, callsJ);
    ResultObject(contractJ, functionJ, sourceJ, locationJ, parameterJ, callsJ)
  }

  /** The keys of `to_json`, in the order the dict literal writes them. */
  const ResultKeyOrder: seq<string> := ["contract", "function", "source", "location", "parameter", "calls"]

  /** The dict literal of `to_json`, from the values of its six keys. */
  function ResultObject(contractJ: Json, functionJ: Json, sourceJ: Json, locationJ: Json, parameterJ: Json, callsJ: Json): (j: Json)
    ensures Field(j, "contract") == Some(contractJ) && Field(j, "function") == Some(functionJ)
    ensures Field(j, "source") == Some(sourceJ) && Field(j, "location") == Some(locationJ)
    ensures Field(j, "parameter") == Some(parameterJ) && Field(j, "calls") == Some(callsJ)
  {
    JObject(ResultKeyOrder,
            map["contract" := contractJ, "function" := functionJ, "source" := sourceJ,
                "location" := locationJ, "parameter" := parameterJ, "calls" := callsJ])
  }

  /** The dict literal of `to_json` has exactly the six keys, in their order. */
  lemma ResultObjectKeys(contractJ: Json, functionJ: Json, sourceJ: Json, locationJ: Json, parameterJ: Json, callsJ: Json)
    ensures HasKeys(ResultObject(contractJ, functionJ, sourceJ, locationJ, parameterJ, callsJ), ResultKeyOrder)
  {
  }

  /** `[{"name": p.name, "type": p.type} for p in parameters]`. */
  function ParametersJson(ps: seq<ParameterInfo>): (r: seq<Json>)
    ensures |r| == |ps| && forall i :: 0 <= i < |ps| ==> r[i] == ParameterJson(ps[i])
  {
    seq(|ps|, i requires 0 <= i < |ps| => ParameterJson(ps[i]))
  }

  /** `[{"file": ..., "function": ..., "module": ...} for call in calls]`. */
  function CallsJson(cs: seq<CallInfo>): (r: seq<Json>)
    ensures |r| == |cs| && forall i :: 0 <= i < |cs| ==> r[i] == CallJson(cs[i])
  {
    seq(|cs|, i requires 0 <= i < |cs| => CallJson(cs[i]))
  }

  /** Reads a `{name, type}` object back into a parameter record. */
  function DecodeParameter(j: Json): Option<ParameterInfo>
  {
    match (Field(j, "name"), Field(j, "type"))
    case (Some(JString(n)), Some(JString(t))) => Some(ParameterInfo(n, t))
    case _ => None
  }

  /** Reads a JSON array of `{name, type}` objects back into parameter records. */
  function DecodeParameters(elems: seq<Json>): Option<seq<ParameterInfo>>
  {
    if elems == [] then Some([])
    else
      match (DecodeParameters(elems[..|elems| - 1]), DecodeParameter(elems[|elems| - 1]))
      case (Some(ps), Some(p)) => Some(ps + [p])
      case _ => None
  }

  /** Reading the "parameter" array back yields exactly the function's parameters,
      in order. */
  lemma ToJsonParametersRoundTrip(q: QueryResult)
    ensures Field(ToJson(q), "parameter").Some? && Field(ToJson(q), "parameter").value.JArray?
    ensures DecodeParameters(Field(ToJson(q), "parameter").value.elems) == Some(q.functionInfo.parameters)
  {
    DecodeParametersOfEncoded(q.functionInfo.parameters);
  }

  lemma {:induction false} DecodeParametersOfEncoded(ps: seq<ParameterInfo>)
    ensures DecodeParameters(ParametersJson(ps)) == Some(ps)
    decreases |ps|
  {
    if ps != [] {
      var n := |ps| - 1;
      var front, p := ps[..n], ps[n];
      var elems := ParametersJson(ps);
      DecodeParametersOfEncoded(front);
      assert elems[..n] == ParametersJson(front);
      assert elems[n] == ParameterJson(p);
      DecodeParameterOfEncoded(p);
      assert front + [p] == ps;
    }
  }

  /** Reading one rendered parameter back yields that parameter. */
  lemma DecodeParameterOfEncoded(p: ParameterInfo)
    ensures DecodeParameter(ParameterJson(p)) == Some(p)
  {
    var j := ParameterJson(p);
    assert Field(j, "name") == Some(JString(p.name));
    assert Field(j, "type") == Some(JString(p.typ));
  }

  /** The "calls" array has one object per call, in order, carrying the callee and
      its module; its "file" is a string, never null, and is empty exactly when the
      call is unresolved (or resolved to an empty path). */
  lemma ToJsonCalls(q: QueryResult, i: nat)
    requires i < |q.calls|
    ensures Field(ToJson(q), "calls").Some? && Field(ToJson(q), "calls").value.JArray?
    ensures |Field(ToJson(q), "calls").value.elems| == |q.calls|
    ensures var c := Field(ToJson(q), "calls").value.elems[i];
            && Field(c, "function") == Some(JString(q.calls[i].calledFunction))
            && Field(c, "module") == Some(JString(q.calls[i].calledModule))
            && Field(c, "file").Some? && Field(c, "file").value.JString?
            && (Field(c, "file").value.s == "" <==> !Truthy(q.calls[i].calledFilePath))
            && (Truthy(q.calls[i].calledFilePath) ==> Field(c, "file").value.s == q.calls[i].calledFilePath.value)
  {
  }
}
