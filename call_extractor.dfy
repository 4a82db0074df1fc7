/**
 * The call extractor (aptos_move_analyzer/call_extractor.py): finding a function's
 * body and its call nodes, classifying a call, building its `CallInfo`, and
 * locating the callee's file in the function multimap.
 *
 * `_extract_function_name` is a placeholder that always yields no name, so the
 * extractor takes the name reader as a parameter; `StubFunctionName` is the
 * placeholder as written.
 */
module CallExtractor {
  import opened Options
  import opened OrderedMaps
  import opened SyntaxTree
  import opened MoveTypes

  /** The kinds `_find_call_expressions` collects. */
  const CallKinds: set<string> := {"call_expr", "receiver_call", "macro_call_expr"}
  /** The kinds `_find_function_body` accepts as a body. */
  const BodyKinds: set<string> := {"block", "expression_list"}
  const ReceiverCall := "receiver_call"
  const NameAccessChain := "name_access_chain"

  /** `_find_function_body`: the first child that is a block or an expression list. */
  function FindFunctionBody(funcNode: Node): (r: Option<Node>)
    ensures r.None? <==> forall i :: 0 <= i < |funcNode.children| ==> funcNode.children[i].kind !in BodyKinds
    ensures r.Some? ==> exists i :: 0 <= i < |funcNode.children| && funcNode.children[i] == r.value
                                    && r.value.kind in BodyKinds
                                    && forall j :: 0 <= j < i ==> funcNode.children[j].kind !in BodyKinds
  {
    match FirstOfKinds(funcNode.children, BodyKinds)
    case Some(i) => Some(funcNode.children[i])
    case None => None
  }

  /** The first step of `traverse`: the node itself is recorded when it is a call. */
  method VisitCall(current: Node, acc: seq<Node>) returns (callNodes: seq<Node>)
    ensures callNodes == acc + FilterKinds([current], CallKinds)
  {
    callNodes := acc;
    if current.kind == "call_expr" || current.kind == "receiver_call" || current.kind == "macro_call_expr" {
      callNodes := callNodes + [current];
    }
    FilterKindsSingle(current, CallKinds);
  }

  /** The recursive `traverse` of `_find_call_expressions`, appending to `acc`. */
  method CollectCalls(current: Node, acc: seq<Node>) returns (callNodes: seq<Node>)
    ensures callNodes == acc + FilterKinds(Preorder(current), CallKinds)
    decreases current
  {
    callNodes := VisitCall(current, acc);
    var cs := current.children;
    assert [current] + PreorderSeq(cs[..0]) == [current] by { assert cs[..0] == []; }
    var i := 0;
    while i < |cs|
      invariant 0 <= i <= |cs|
      invariant callNodes == acc + FilterKinds([current] + PreorderSeq(cs[..i]), CallKinds)
    {
      var child := cs[i];
      ghost var before := callNodes;
      callNodes := CollectCalls(child, callNodes);
      assert callNodes == acc + FilterKinds([current] + PreorderSeq(cs[..i + 1]), CallKinds) by {
        assert callNodes == before + FilterKinds(Preorder(child), CallKinds);
        FilterKindsPreorderStep(current, i, CallKinds);
      }
      i := i + 1;
    }
    assert FilterKinds([current] + PreorderSeq(cs[..i]), CallKinds) == FilterKinds(Preorder(current), CallKinds) by {
      assert cs[..i] == cs;
    }
  }

  /** `_find_call_expressions`: the call nodes of the tree in preorder. */
  method FindCallExpressions(node: Node) returns (callNodes: seq<Node>)
    ensures callNodes == FilterKinds(Preorder(node), CallKinds)
    ensures forall x :: x in callNodes <==> x in Preorder(node) && x.kind in CallKinds
  {
    callNodes := CollectCalls(node, []);
    forall x ensures x in callNodes <==> x in Preorder(node) && x.kind in CallKinds {
      FilterKindsMembership(Preorder(node), CallKinds, x);
    }
  }

  /** A call nested anywhere below a node, including inside the arguments of another
      call, is among the call nodes found from it. */
  lemma NestedCallFound(node: Node, i: nat, x: Node)
    requires i < |node.children| && x in Preorder(node.children[i]) && x.kind in CallKinds
    ensures x in FilterKinds(Preorder(node), CallKinds)
  {
    ChildSubtreeInPreorder(node, i, x);
    FilterKindsMembership(Preorder(node), CallKinds, x);
  }

  /** `_determine_call_type`. */
  function CallTypeOf(callNode: Node): (t: string)
    ensures t == "receiver" <==> callNode.kind == ReceiverCall
    ensures t == "qualified" <==> callNode.kind != ReceiverCall
                                  && exists i :: 0 <= i < |callNode.children| && callNode.children[i].kind == NameAccessChain
    ensures t == "direct" <==> callNode.kind != ReceiverCall
                               && !exists i :: 0 <= i < |callNode.children| && callNode.children[i].kind == NameAccessChain
  {
    if callNode.kind == ReceiverCall then "receiver"
    else if AnyOfKind(callNode.children, NameAccessChain) then "qualified"
    else "direct"
  }

  /** `_extract_function_name` as written: no name and no module path. */
  function StubFunctionName(callNode: Node, text: string): (string, Option<string>)
  {
    ("", None)
  }

  /** `_find_call_location`: no file when no function of that name is indexed; with a
      module path, the file of the first candidate in that module (by name or by
      key), or none; without one, the file of the first candidate. */
  function FindCallLocation(functionName: string, modulePath: Option<string>, index: ProjectIndex): (r: Option<string>)
    ensures Lookup(index.functions, functionName) == [] ==> r == None
    ensures var cands := Lookup(index.functions, functionName);
            cands != [] && !Truthy(modulePath) ==> r == Some(cands[0].filePath)
    ensures var cands := Lookup(index.functions, functionName);
            Truthy(modulePath) ==> (r.Some? <==> exists i :: 0 <= i < |cands| && InModule(cands[i], modulePath.value))
    ensures var cands := Lookup(index.functions, functionName);
            Truthy(modulePath) && r.Some? ==>
              exists i :: 0 <= i < |cands| && InModule(cands[i], modulePath.value) && r.value == cands[i].filePath
                          && forall j :: 0 <= j < i ==> !InModule(cands[j], modulePath.value)
  {
    var matching := Lookup(index.functions, functionName);
    if matching == [] then None
    else if Truthy(modulePath) then
      match FirstInModule(matching, modulePath.value)
      case Some(i) => Some(matching[i].filePath)
      case None => None
    else Some(matching[0].filePath)
  }

  /** `_extract_call_info`, with the name reader `nameOf` standing for
      `_extract_function_name`: no call for an empty name; otherwise the callee is
      `path::name` with a path and `name` without, its module is the path or else the
      caller's module, and its file is what `_find_call_location` finds. */
  function CallInfoOf(callNode: Node, caller: FunctionInfo, index: ProjectIndex, text: string,
                      nameOf: (Node, string) -> (string, Option<string>)): (r: Option<CallInfo>)
    ensures r.None? <==> nameOf(callNode, text).0 == ""
    ensures r.Some? ==> var (name, path) := nameOf(callNode, text);
                        && r.value.calledFunction == (if Truthy(path) then path.value + "::" + name else name)
                        && r.value.calledModule == (if Truthy(path) then path.value else caller.moduleName)
                        && r.value.calledFilePath == FindCallLocation(name, path, index)
                        && r.value.callType == CallTypeOf(callNode)
  {
    var callType := CallTypeOf(callNode);
    var (functionName, modulePath) := nameOf(callNode, text);
    if functionName == "" then None
    else
      Some(CallInfo(
        calledFunction := if Truthy(modulePath) then modulePath.value + "::" + functionName else functionName,
        calledModule := if Truthy(modulePath) then modulePath.value else caller.moduleName,
        calledFilePath := FindCallLocation(functionName, modulePath, index),
        callType := callType))
  }

  /** With the placeholder name reader no call site yields a `CallInfo`. */
  lemma StubYieldsNoCalls(callNode: Node, caller: FunctionInfo, index: ProjectIndex, text: string)
    ensures CallInfoOf(callNode, caller, index, text, StubFunctionName).None?
  {
  }

  /** `extract_calls`: whether or not the caller's file can be read, the list of calls
      is returned empty. */
  function ExtractCalls(f: FunctionInfo, index: ProjectIndex): seq<CallInfo>
  {
    []
  }
}
