/**
 * Per-file extraction (aptos_move_analyzer/indexer.py): reading module and
 * function records off one parsed file. Each `_parse_*` and `_extract_*`
 * routine is a method with the source's loops, proved equal to a function
 * that specifies it; the lemmas state what those functions promise.
 */
module Indexer {
  import opened Options
  import opened Text
  import opened SyntaxTree
  import opened MoveTypes

  const ModuleDefinition := "module_definition"
  const ModuleIdentity := "module_identity"
  const FunctionDefinition := "function_definition"
  const Identifier := "identifier"
  const FunctionParameters := "function_parameters"
  const FunctionParameter := "function_parameter"
  const RetType := "ret_type"
  const Public := "public"
  /** The kinds `_parse_parameters` takes a parameter's type from. */
  const TypeKinds: set<string> := {"type", "primitive_type", "apply_type"}
  /** The kinds `_parse_function` records as modifiers. */
  const ModifierKinds: set<string> := {"entry", "inline", "native"}

  // ----- module identity -----

  /** The module context: the name and address most recently read off a
      `module_identity` node. */
  datatype Scope = Scope(moduleName: string, address: string)

  /** One `module_identity` node: with two or more identifiers the first is the
      address and the second the name; with one it is the name and the address
      stays as it was; with none nothing changes. */
  function ReadIdentity(identity: Node, text: string, s: Scope): Scope
  {
    var ids := FilterKinds(identity.children, {Identifier});
    if |ids| >= 2 then Scope(NodeText(text, ids[1]), NodeText(text, ids[0]))
    else if |ids| == 1 then s.(moduleName := NodeText(text, ids[0]))
    else s
  }

  /** The loop over a module definition's children, reading every
      `module_identity` child in turn. */
  function IdentityFold(cs: seq<Node>, text: string, s: Scope): Scope
  {
    if cs == [] then s
    else
      var before := IdentityFold(cs[..|cs| - 1], text, s);
      if cs[|cs| - 1].kind == ModuleIdentity then ReadIdentity(cs[|cs| - 1], text, before) else before
  }

  lemma {:induction false} IdentityFoldNoIdentity(cs: seq<Node>, text: string, s: Scope)
    requires forall j :: 0 <= j < |cs| ==> cs[j].kind != ModuleIdentity
    ensures IdentityFold(cs, text, s) == s
    decreases |cs|
  {
    if cs != [] {
      IdentityFoldNoIdentity(cs[..|cs| - 1], text, s);
    }
  }

  lemma {:induction false} IdentityFoldAppend(a: seq<Node>, b: seq<Node>, text: string, s: Scope)
    ensures IdentityFold(a + b, text, s) == IdentityFold(b, text, IdentityFold(a, text, s))
    decreases |b|
  {
    if b == [] {
      assert a + b == a;
    } else {
      assert (a + b)[..|a + b| - 1] == a + b[..|b| - 1];
      IdentityFoldAppend(a, b[..|b| - 1], text, s);
    }
  }

  /** A module definition with a single `module_identity` child (the shape the
      grammar produces) reads its identity off that child's identifiers: two or
      more give address and name, exactly one gives the name and keeps the
      address it started from, none changes nothing. */
  lemma SingleIdentity(cs: seq<Node>, text: string, s: Scope, k: nat)
    requires k < |cs| && cs[k].kind == ModuleIdentity
    requires forall j :: 0 <= j < |cs| && j != k ==> cs[j].kind != ModuleIdentity
    ensures var ids := FilterKinds(cs[k].children, {Identifier});
            var r := IdentityFold(cs, text, s);
            && (|ids| >= 2 ==> r == Scope(NodeText(text, ids[1]), NodeText(text, ids[0])))
            && (|ids| == 1 ==> r == Scope(NodeText(text, ids[0]), s.address))
            && (|ids| == 0 ==> r == s)
  {
    assert cs == cs[..k] + [cs[k]] + cs[k + 1..];
    IdentityFoldNoIdentity(cs[..k], text, s);
    IdentityFoldNoIdentity(cs[k + 1..], text, ReadIdentity(cs[k], text, s));
    IdentityFoldAppend(cs[..k] + [cs[k]], cs[k + 1..], text, s);
    IdentityFoldAppend(cs[..k], [cs[k]], text, s);
    assert ([cs[k]])[..0] == [];
  }

  /** The identity loop that `_parse_module` and `_extract_functions` both run over
      a module definition's children. */
  method ReadModuleIdentity(cs: seq<Node>, text: string, moduleName: string, address: string)
    returns (newName: string, newAddress: string)
    ensures Scope(newName, newAddress) == IdentityFold(cs, text, Scope(moduleName, address))
  {
    newName, newAddress := moduleName, address;
    var i := 0;
    while i < |cs|
      invariant 0 <= i <= |cs|
      invariant Scope(newName, newAddress) == IdentityFold(cs[..i], text, Scope(moduleName, address))
    {
      var child := cs[i];
      if child.kind == ModuleIdentity {
        var ids := FilterKinds(child.children, {Identifier});
        if |ids| >= 2 {
          newAddress := NodeText(text, ids[0]);
          newName := NodeText(text, ids[1]);
        } else if |ids| == 1 {
          newName := NodeText(text, ids[0]);
        }
      }
      assert cs[..i + 1][..i] == cs[..i];
      i := i + 1;
    }
    assert cs[..i] == cs;
  }

  /** The module record `_parse_module` builds: identity read from an empty
      start, no functions yet. */
  function ModuleOf(n: Node, file: string, text: string): (m: ModuleInfo)
    ensures m.filePath == file && m.functions == [] && m.structs == [] && m.constants == []
  {
    var s := IdentityFold(n.children, text, Scope("", ""));
    NewModuleInfo(s.moduleName, s.address, file)
  }

  /** `_parse_module`. */
  method ParseModule(n: Node, file: string, text: string) returns (m: ModuleInfo)
    ensures m == ModuleOf(n, file, text)
  {
    var moduleName, address := ReadModuleIdentity(n.children, text, "", "");
    m := NewModuleInfo(moduleName, address, file);
  }

  // ----- functions -----

  /** The text of the last child whose kind is in `ks`, or "" when there is none:
      what a loop that overwrites a string at each such child leaves. */
  function LastText(cs: seq<Node>, ks: set<string>, text: string): string
  {
    match LastOfKinds(cs, ks)
    case Some(j) => NodeText(text, cs[j])
    case None => ""
  }

  lemma LastTextStep(cs: seq<Node>, ks: set<string>, text: string, j: nat)
    requires j < |cs|
    ensures LastText(cs[..j + 1], ks, text)
            == if cs[j].kind in ks then NodeText(text, cs[j]) else LastText(cs[..j], ks, text)
  {
    assert cs[..j + 1][..j] == cs[..j];
  }

  /** One `function_parameter` node: the name of its last identifier and the text of
      its last type child; no parameter when the name is empty. */
  function ParameterOf(p: Node, text: string): (r: Option<ParameterInfo>)
    ensures r.Some? ==> r.value.name != ""
    ensures r.None? <==> LastText(p.children, {Identifier}, text) == ""
  {
    var name := LastText(p.children, {Identifier}, text);
    var typ := LastText(p.children, TypeKinds, text);
    if name != "" then Some(ParameterInfo(name, typ)) else None
  }

  /** The parameters read off a parameter list's children, in child order: one per
      `function_parameter` child with a non-empty name. */
  function CollectParameters(cs: seq<Node>, text: string): (r: seq<ParameterInfo>)
    ensures |r| <= |FilterKinds(cs, {FunctionParameter})|
    ensures forall k :: 0 <= k < |r| ==> r[k].name != ""
  {
    if cs == [] then []
    else
      var last := cs[|cs| - 1];
      CollectParameters(cs[..|cs| - 1], text)
        + (if last.kind == FunctionParameter && ParameterOf(last, text).Some?
           then [ParameterOf(last, text).value] else [])
  }

  lemma CollectParametersStep(cs: seq<Node>, text: string, i: nat)
    requires i < |cs|
    ensures CollectParameters(cs[..i + 1], text)
            == CollectParameters(cs[..i], text)
               + (if cs[i].kind == FunctionParameter && ParameterOf(cs[i], text).Some?
                  then [ParameterOf(cs[i], text).value] else [])
  {
    assert cs[..i + 1][..i] == cs[..i];
  }

  /** Parameters of disjoint stretches of children come out one after the other. */
  lemma {:induction false} CollectParametersAppend(a: seq<Node>, b: seq<Node>, text: string)
    ensures CollectParameters(a + b, text) == CollectParameters(a, text) + CollectParameters(b, text)
    decreases |b|
  {
    if b == [] {
      assert a + b == a;
    } else {
      assert (a + b)[..|a + b| - 1] == a + b[..|b| - 1];
      CollectParametersAppend(a, b[..|b| - 1], text);
    }
  }

  /** The parameter list `_parse_parameters` returns for a `function_parameters` node. */
  function ParametersOf(params: Node, text: string): seq<ParameterInfo>
  {
    CollectParameters(params.children, text)
  }

  /** The inner loop of `_parse_parameters`: every identifier child overwrites the
      name and every type child the type. */
  method ReadParameter(p: Node, text: string) returns (paramName: string, paramType: string)
    ensures paramName == LastText(p.children, {Identifier}, text)
    ensures paramType == LastText(p.children, TypeKinds, text)
  {
    paramName := "";
    paramType := "";
    var pcs := p.children;
    var j := 0;
    while j < |pcs|
      invariant 0 <= j <= |pcs|
      invariant paramName == LastText(pcs[..j], {Identifier}, text)
      invariant paramType == LastText(pcs[..j], TypeKinds, text)
    {
      var child := pcs[j];
      var isType := child.kind == "type" || child.kind == "primitive_type" || child.kind == "apply_type";
      assert isType <==> child.kind in TypeKinds;
      if child.kind == Identifier {
        paramName := NodeText(text, child);
      } else if isType {
        paramType := NodeText(text, child);
      }
      assert paramName == LastText(pcs[..j + 1], {Identifier}, text)
             && paramType == LastText(pcs[..j + 1], TypeKinds, text) by {
        LastTextStep(pcs, {Identifier}, text, j);
        LastTextStep(pcs, TypeKinds, text, j);
        assert Identifier !in TypeKinds;
      }
      j := j + 1;
    }
    assert pcs[..j] == pcs;
  }

  /** `_parse_parameters`. */
  method ParseParameters(params: Node, text: string) returns (parameters: seq<ParameterInfo>)
    ensures parameters == ParametersOf(params, text)
  {
    parameters := [];
    var cs := params.children;
    var i := 0;
    while i < |cs|
      invariant 0 <= i <= |cs|
      invariant parameters == CollectParameters(cs[..i], text)
    {
      var child := cs[i];
      ghost var before := parameters;
      if child.kind == FunctionParameter {
        var paramName, paramType := ReadParameter(child, text);
        if paramName != "" {
          parameters := parameters + [ParameterInfo(paramName, paramType)];
        }
      }
      assert parameters == CollectParameters(cs[..i + 1], text) by {
        CollectParametersStep(cs, text, i);
      }
      i := i + 1;
    }
    assert cs[..i] == cs;
  }

  /** The name `_parse_function` reads: the text of the first identifier child. */
  function FunctionName(cs: seq<Node>, text: string): string
  {
    match FirstOfKinds(cs, {Identifier})
    case Some(i) => NodeText(text, cs[i])
    case None => ""
  }

  /** The parameters read off the last `function_parameters` child, or none. */
  function LastParameters(cs: seq<Node>, text: string): seq<ParameterInfo>
  {
    match LastOfKinds(cs, {FunctionParameters})
    case Some(i) => ParametersOf(cs[i], text)
    case None => []
  }

  /** The stripped text of the last `ret_type` child, or None. */
  function ReturnType(cs: seq<Node>, text: string): Option<string>
  {
    match LastOfKinds(cs, {RetType})
    case Some(i) => Some(Strip(NodeText(text, cs[i])))
    case None => None
  }

  /** `'public'` when some child is `public`, otherwise `'private'`. */
  function Visibility(cs: seq<Node>): (v: string)
    ensures v == "public" <==> exists i :: 0 <= i < |cs| && cs[i].kind == Public
    ensures v == "private" <==> !exists i :: 0 <= i < |cs| && cs[i].kind == Public
  {
    if AnyOfKind(cs, Public) then "public" else "private"
  }

  /** The kinds of the `entry`, `inline` and `native` children, in child order. */
  function Modifiers(cs: seq<Node>): seq<string>
  {
    Kinds(FilterKinds(cs, ModifierKinds))
  }

  /** The function record `_parse_function` builds for a `function_definition`
      node inside module context `s`. */
  function FunctionOf(n: Node, file: string, text: string, s: Scope): (f: FunctionInfo)
    ensures f.moduleName == s.moduleName && f.moduleAddress == s.address && f.filePath == file
    ensures f.sourceCode == NodeText(text, n)
    ensures f.startLine == LineAt(text, n.startByte) && f.endLine == LineAt(text, n.endByte)
    ensures 1 <= f.startLine && (n.startByte <= n.endByte ==> f.startLine <= f.endLine)
  {
    LineAtMonotone(text, n.startByte, n.endByte);
    FunctionInfo(
      name := FunctionName(n.children, text),
      moduleName := s.moduleName,
      moduleAddress := s.address,
      filePath := file,
      startLine := LineAt(text, n.startByte),
      endLine := LineAt(text, n.endByte),
      sourceCode := NodeText(text, n),
      parameters := LastParameters(n.children, text),
      returnType := ReturnType(n.children, text),
      visibility := Visibility(n.children),
      modifiers := Modifiers(n.children))
  }

  /** The name is the text of the first identifier child, or "" when there is none. */
  lemma FunctionNameOf(cs: seq<Node>, text: string)
    ensures (forall i :: 0 <= i < |cs| ==> cs[i].kind != Identifier) ==> FunctionName(cs, text) == ""
    ensures forall i :: 0 <= i < |cs| && cs[i].kind == Identifier
                        && (forall j :: 0 <= j < i ==> cs[j].kind != Identifier)
                        ==> FunctionName(cs, text) == NodeText(text, cs[i])
  {
    forall i | 0 <= i < |cs| && cs[i].kind == Identifier && (forall j :: 0 <= j < i ==> cs[j].kind != Identifier)
      ensures FunctionName(cs, text) == NodeText(text, cs[i])
    {
      FirstOfKindsIs(cs, {Identifier}, i);
    }
  }

  /** Modifiers are exactly the `entry`, `inline` and `native` children, in child order. */
  lemma ModifiersOf(cs: seq<Node>, m: string)
    ensures forall k :: 0 <= k < |Modifiers(cs)| ==> Modifiers(cs)[k] in ModifierKinds
    ensures m in Modifiers(cs) <==> m in ModifierKinds && exists i :: 0 <= i < |cs| && cs[i].kind == m
    ensures |Modifiers(cs)| <= |cs|
  {
    var picked := FilterKinds(cs, ModifierKinds);
    if m in Modifiers(cs) {
      var k :| 0 <= k < |picked| && picked[k].kind == m;
      FilterKindsMembership(cs, ModifierKinds, picked[k]);
    }
    if m in ModifierKinds && exists i :: 0 <= i < |cs| && cs[i].kind == m {
      var i :| 0 <= i < |cs| && cs[i].kind == m;
      FilterKindsMembership(cs, ModifierKinds, cs[i]);
      var k :| 0 <= k < |picked| && picked[k] == cs[i];
      assert Modifiers(cs)[k] == m;
    }
  }

  /** The first loop of `_parse_function`: the name, up to the first identifier. */
  method ReadName(cs: seq<Node>, text: string) returns (funcName: string)
    ensures funcName == FunctionName(cs, text)
  {
    funcName := "";
    var i := 0;
    while i < |cs|
      invariant 0 <= i <= |cs|
      invariant funcName == "" && forall j :: 0 <= j < i ==> cs[j].kind != Identifier
    {
      if cs[i].kind == Identifier {
        funcName := NodeText(text, cs[i]);
        FirstOfKindsIs(cs, {Identifier}, i);
        return;
      }
      i := i + 1;
    }
  }

  lemma VisibilityStep(cs: seq<Node>, i: nat)
    requires i < |cs|
    ensures Visibility(cs[..i + 1]) == if cs[i].kind == Public then "public" else Visibility(cs[..i])
  {
    AnyOfKindStep(cs, Public, i);
  }

  lemma ModifiersStep(cs: seq<Node>, i: nat)
    requires i < |cs|
    ensures Modifiers(cs[..i + 1]) == Modifiers(cs[..i]) + (if cs[i].kind in ModifierKinds then [cs[i].kind] else [])
  {
    FilterKindsStep(cs, ModifierKinds, i);
    KindsSnoc(FilterKinds(cs[..i], ModifierKinds), cs[i]);
  }

  /** The second loop of `_parse_function`: visibility and modifiers. */
  method ReadVisibility(cs: seq<Node>) returns (visibility: string, modifiers: seq<string>)
    ensures visibility == Visibility(cs)
    ensures modifiers == Modifiers(cs)
  {
    visibility := "private";
    modifiers := [];
    var i := 0;
    while i < |cs|
      invariant 0 <= i <= |cs|
      invariant visibility == Visibility(cs[..i])
      invariant modifiers == Modifiers(cs[..i])
    {
      var child := cs[i];
      var isModifier := child.kind == "entry" || child.kind == "inline" || child.kind == "native";
      assert isModifier <==> child.kind in ModifierKinds;
      if child.kind == Public || isModifier {
        if child.kind == Public {
          visibility := "public";
        } else {
          modifiers := modifiers + [child.kind];
        }
      }
      assert visibility == Visibility(cs[..i + 1]) && modifiers == Modifiers(cs[..i + 1]) by {
        VisibilityStep(cs, i);
        ModifiersStep(cs, i);
        assert Public !in ModifierKinds;
      }
      i := i + 1;
    }
    assert cs[..i] == cs;
  }

  /** The third loop of `_parse_function`: every `function_parameters` child
      replaces the parameters read so far. */
  method ReadParameters(cs: seq<Node>, text: string) returns (parameters: seq<ParameterInfo>)
    ensures parameters == LastParameters(cs, text)
  {
    parameters := [];
    var i := 0;
    while i < |cs|
      invariant 0 <= i <= |cs|
      invariant parameters == LastParameters(cs[..i], text)
    {
      LastOfKindsStep(cs, {FunctionParameters}, i);
      assert cs[..i + 1][i] == cs[i];
      if cs[i].kind == FunctionParameters {
        parameters := ParseParameters(cs[i], text);
      }
      i := i + 1;
    }
    assert cs[..i] == cs;
  }

  /** The fourth loop of `_parse_function`: every `ret_type` child replaces the
      return type read so far. */
  method ReadReturnType(cs: seq<Node>, text: string) returns (returnType: Option<string>)
    ensures returnType == ReturnType(cs, text)
  {
    returnType := None;
    var i := 0;
    while i < |cs|
      invariant 0 <= i <= |cs|
      invariant returnType == ReturnType(cs[..i], text)
    {
      LastOfKindsStep(cs, {RetType}, i);
      assert cs[..i + 1][i] == cs[i];
      if cs[i].kind == RetType {
        returnType := Some(Strip(NodeText(text, cs[i])));
      }
      i := i + 1;
    }
    assert cs[..i] == cs;
  }

  /** `_parse_function`. */
  method ParseFunction(n: Node, file: string, text: string, moduleName: string, moduleAddress: string)
    returns (f: FunctionInfo)
    ensures f == FunctionOf(n, file, text, Scope(moduleName, moduleAddress))
  {
    var funcName := ReadName(n.children, text);
    var visibility, modifiers := ReadVisibility(n.children);
    var parameters := ReadParameters(n.children, text);
    var returnType := ReadReturnType(n.children, text);
    var funcSource := NodeText(text, n);
    var startLine := CountNewlines(Slice(text, 0, n.startByte)) + 1;
    var endLine := CountNewlines(Slice(text, 0, n.endByte)) + 1;
    f := FunctionInfo(funcName, moduleName, moduleAddress, file, startLine, endLine,
                      funcSource, parameters, returnType, visibility, modifiers);
  }

  // ----- the two traversals -----

  /** `[self._parse_module(m) for m in ms]`, position by position. */
  function ModulesOf(ms: seq<Node>, file: string, text: string): (r: seq<ModuleInfo>)
    ensures |r| == |ms| && forall i :: 0 <= i < |ms| ==> r[i] == ModuleOf(ms[i], file, text)
  {
    seq(|ms|, i requires 0 <= i < |ms| => ModuleOf(ms[i], file, text))
  }

  /** What `_extract_modules` returns: one record per `module_definition` node, in
      preorder, nested definitions included. */
  function ModulesIn(root: Node, file: string, text: string): seq<ModuleInfo>
  {
    ModulesOf(FilterKinds(Preorder(root), {ModuleDefinition}), file, text)
  }

  /** The module records for the module definitions among `ns`. */
  function ModulesAmong(ns: seq<Node>, file: string, text: string): seq<ModuleInfo>
  {
    ModulesOf(FilterKinds(ns, {ModuleDefinition}), file, text)
  }

  lemma ModulesAmongAppend(a: seq<Node>, b: seq<Node>, file: string, text: string)
    ensures ModulesAmong(a + b, file, text) == ModulesAmong(a, file, text) + ModulesAmong(b, file, text)
  {
    FilterKindsAppend(a, b, {ModuleDefinition});
  }

  lemma ModulesAmongSingle(n: Node, file: string, text: string)
    ensures ModulesAmong([n], file, text) == if n.kind == ModuleDefinition then [ModuleOf(n, file, text)] else []
  {
    assert [n][..0] == [];
  }

  /** The records of the module definitions visited after one more child subtree. */
  lemma ModulesPreorderStep(n: Node, i: nat, file: string, text: string)
    requires i < |n.children|
    ensures ModulesAmong([n] + PreorderSeq(n.children[..i + 1]), file, text)
            == ModulesAmong([n] + PreorderSeq(n.children[..i]), file, text) + ModulesIn(n.children[i], file, text)
  {
    var cs := n.children;
    PreorderSeqStep(cs, i);
    assert [n] + PreorderSeq(cs[..i + 1]) == ([n] + PreorderSeq(cs[..i])) + Preorder(cs[i]);
    ModulesAmongAppend([n] + PreorderSeq(cs[..i]), Preorder(cs[i]), file, text);
  }

  /** The first step of `traverse`: a module definition is parsed and recorded. */
  method VisitModule(n: Node, file: string, text: string, acc: seq<ModuleInfo>) returns (r: seq<ModuleInfo>)
    ensures r == acc + ModulesAmong([n], file, text)
  {
    r := acc;
    if n.kind == ModuleDefinition {
      var m := ParseModule(n, file, text);
      r := r + [m];
    }
    ModulesAmongSingle(n, file, text);
  }

  /** The recursive `traverse` of `_extract_modules`, appending to `acc`. */
  method CollectModules(n: Node, file: string, text: string, acc: seq<ModuleInfo>)
    returns (r: seq<ModuleInfo>)
    ensures r == acc + ModulesIn(n, file, text)
    decreases n
  {
    r := VisitModule(n, file, text, acc);
    var cs := n.children;
    assert [n] + PreorderSeq(cs[..0]) == [n] by { assert cs[..0] == []; }
    var i := 0;
    while i < |cs|
      invariant 0 <= i <= |cs|
      invariant r == acc + ModulesAmong([n] + PreorderSeq(cs[..i]), file, text)
    {
      var child := cs[i];
      ghost var before := r;
      r := CollectModules(child, file, text, r);
      assert r == acc + ModulesAmong([n] + PreorderSeq(cs[..i + 1]), file, text) by {
        assert r == before + ModulesIn(child, file, text);
        ModulesPreorderStep(n, i, file, text);
      }
      i := i + 1;
    }
    assert ModulesAmong([n] + PreorderSeq(cs[..i]), file, text) == ModulesIn(n, file, text) by {
      assert cs[..i] == cs;
    }
  }

  /** `_extract_modules`. */
  method ExtractModules(root: Node, file: string, text: string) returns (modules: seq<ModuleInfo>)
    ensures modules == ModulesIn(root, file, text)
    ensures |modules| == |FilterKinds(Preorder(root), {ModuleDefinition})|
    ensures forall i :: 0 <= i < |modules| ==> modules[i].filePath == file && modules[i].functions == []
  {
    modules := CollectModules(root, file, text, []);
  }

  /** The state `_extract_functions` keeps across its traversal: the current module
      context (never reset) and the functions found so far. */
  datatype WalkState = WalkState(scope: Scope, functions: seq<FunctionInfo>)

  /** Visiting a node updates the context when it is a module definition. */
  function Enter(n: Node, text: string, s: Scope): Scope
  {
    if n.kind == ModuleDefinition then IdentityFold(n.children, text, s) else s
  }

  /** One visit of `traverse`: update the context, then record a function definition
      under the context just updated. */
  function Visit(n: Node, file: string, text: string, w: WalkState): WalkState
  {
    var s := Enter(n, text, w.scope);
    WalkState(s, if n.kind == FunctionDefinition then w.functions + [FunctionOf(n, file, text, s)] else w.functions)
  }

  /** Visiting the nodes in turn. */
  function Walk(ns: seq<Node>, file: string, text: string, w: WalkState): WalkState
  {
    if ns == [] then w else Visit(ns[|ns| - 1], file, text, Walk(ns[..|ns| - 1], file, text, w))
  }

  lemma {:induction false} WalkAppend(a: seq<Node>, b: seq<Node>, file: string, text: string, w: WalkState)
    ensures Walk(a + b, file, text, w) == Walk(b, file, text, Walk(a, file, text, w))
    decreases |b|
  {
    if b == [] {
      assert a + b == a;
    } else {
      assert (a + b)[..|a + b| - 1] == a + b[..|b| - 1];
      WalkAppend(a, b[..|b| - 1], file, text, w);
    }
  }

  /** A walk keeps the functions it started with and adds one per function definition. */
  lemma {:induction false} WalkExtends(ns: seq<Node>, file: string, text: string, w: WalkState)
    ensures |Walk(ns, file, text, w).functions| == |w.functions| + |FilterKinds(ns, {FunctionDefinition})|
    ensures Walk(ns, file, text, w).functions[..|w.functions|] == w.functions
    decreases |ns|
  {
    if ns != [] {
      WalkExtends(ns[..|ns| - 1], file, text, w);
    }
  }

  /** The context changes only at module definitions. */
  lemma {:induction false} WalkKeepsScope(ns: seq<Node>, file: string, text: string, w: WalkState)
    requires forall j :: 0 <= j < |ns| ==> ns[j].kind != ModuleDefinition
    ensures Walk(ns, file, text, w).scope == w.scope
    decreases |ns|
  {
    if ns != [] {
      WalkKeepsScope(ns[..|ns| - 1], file, text, w);
    }
  }

  /** The context at a node is what the most recently visited module definition made
      of the context before it: the context is never reset at the end of a module. */
  lemma ScopeFromLastModule(ns: seq<Node>, file: string, text: string, w: WalkState, m: nat, i: nat)
    requires m < i <= |ns| && ns[m].kind == ModuleDefinition
    requires forall j :: m < j < i ==> ns[j].kind != ModuleDefinition
    ensures Walk(ns[..i], file, text, w).scope
            == IdentityFold(ns[m].children, text, Walk(ns[..m], file, text, w).scope)
  {
    assert ns[..i] == ns[..m + 1] + ns[m + 1..i];
    WalkAppend(ns[..m + 1], ns[m + 1..i], file, text, w);
    WalkKeepsScope(ns[m + 1..i], file, text, Walk(ns[..m + 1], file, text, w));
    assert ns[..m + 1][..m] == ns[..m];
  }

  /** The function at preorder position `i` is recorded after those before it, under
      the context reached just before it. */
  lemma WalkTagsFunction(ns: seq<Node>, file: string, text: string, w: WalkState, i: nat)
    requires i < |ns| && ns[i].kind == FunctionDefinition
    ensures var before := Walk(ns[..i], file, text, w);
            var after := Walk(ns, file, text, w);
            && |before.functions| == |w.functions| + |FilterKinds(ns[..i], {FunctionDefinition})|
            && |before.functions| < |after.functions|
            && after.functions[|before.functions|] == FunctionOf(ns[i], file, text, before.scope)
  {
    var before := Walk(ns[..i], file, text, w);
    var at := Walk(ns[..i + 1], file, text, w);
    assert ns[..i + 1][..i] == ns[..i];
    assert at.functions == before.functions + [FunctionOf(ns[i], file, text, before.scope)];
    assert ns == ns[..i + 1] + ns[i + 1..];
    WalkAppend(ns[..i + 1], ns[i + 1..], file, text, w);
    WalkExtends(ns[i + 1..], file, text, at);
    WalkExtends(ns[..i], file, text, w);
    assert Walk(ns, file, text, w).functions[..|at.functions|] == at.functions;
  }

  /** What `_extract_functions` returns: the functions found by walking the tree in
      preorder from an empty context. */
  function FunctionsIn(root: Node, file: string, text: string): seq<FunctionInfo>
  {
    Walk(Preorder(root), file, text, WalkState(Scope("", ""), [])).functions
  }

  /** `_extract_functions` returns one record per `function_definition` node, in
      preorder, each tagged with the context most recently set before it. */
  lemma FunctionsInPreorder(root: Node, file: string, text: string, i: nat)
    requires i < |Preorder(root)| && Preorder(root)[i].kind == FunctionDefinition
    ensures var ns := Preorder(root);
            var k := |FilterKinds(ns[..i], {FunctionDefinition})|;
            && |FunctionsIn(root, file, text)| == |FilterKinds(ns, {FunctionDefinition})|
            && k < |FunctionsIn(root, file, text)|
            && FunctionsIn(root, file, text)[k]
               == FunctionOf(ns[i], file, text, Walk(ns[..i], file, text, WalkState(Scope("", ""), [])).scope)
  {
    var w := WalkState(Scope("", ""), []);
    WalkTagsFunction(Preorder(root), file, text, w, i);
    WalkExtends(Preorder(root), file, text, w);
  }

  /** Once a module with an address has set the context, a later module whose
      identity has a single identifier tags its functions with the earlier address,
      while its own module record has an empty address. */
  lemma AddressCarriesOver(n: Node, file: string, text: string, s: Scope, k: nat)
    requires n.kind == ModuleDefinition
    requires k < |n.children| && n.children[k].kind == ModuleIdentity
    requires forall j :: 0 <= j < |n.children| && j != k ==> n.children[j].kind != ModuleIdentity
    requires |FilterKinds(n.children[k].children, {Identifier})| == 1
    ensures Enter(n, text, s).address == s.address
    ensures ModuleOf(n, file, text).address == ""
    ensures Enter(n, text, s).moduleName == ModuleOf(n, file, text).moduleName
  {
    SingleIdentity(n.children, text, s, k);
    SingleIdentity(n.children, text, Scope("", ""), k);
  }

  /** The walk after one more child subtree. */
  lemma WalkPreorderStep(n: Node, i: nat, file: string, text: string, w: WalkState)
    requires i < |n.children|
    ensures Walk([n] + PreorderSeq(n.children[..i + 1]), file, text, w)
            == Walk(Preorder(n.children[i]), file, text, Walk([n] + PreorderSeq(n.children[..i]), file, text, w))
  {
    var cs := n.children;
    PreorderSeqStep(cs, i);
    assert [n] + PreorderSeq(cs[..i + 1]) == ([n] + PreorderSeq(cs[..i])) + Preorder(cs[i]);
    WalkAppend([n] + PreorderSeq(cs[..i]), Preorder(cs[i]), file, text, w);
  }

  /** The first step of `traverse`: a module definition updates the context, then a
      function definition is parsed under it and recorded. */
  method VisitFunctionNode(n: Node, file: string, text: string,
                           currentModule: string, currentAddress: string, functions: seq<FunctionInfo>)
    returns (newModule: string, newAddress: string, newFunctions: seq<FunctionInfo>)
    ensures WalkState(Scope(newModule, newAddress), newFunctions)
            == Walk([n] + PreorderSeq([]), file, text, WalkState(Scope(currentModule, currentAddress), functions))
  {
    newModule, newAddress, newFunctions := currentModule, currentAddress, functions;
    if n.kind == ModuleDefinition {
      newModule, newAddress := ReadModuleIdentity(n.children, text, newModule, newAddress);
    }
    if n.kind == FunctionDefinition {
      var f := ParseFunction(n, file, text, newModule, newAddress);
      newFunctions := newFunctions + [f];
    }
    assert [n] + PreorderSeq([]) == [n];
    assert [n][..0] == [];
  }

  /** The recursive `traverse` of `_extract_functions`; the context variables and
      the function list it updates are passed in and handed back. */
  method CollectFunctions(n: Node, file: string, text: string,
                          currentModule: string, currentAddress: string, functions: seq<FunctionInfo>)
    returns (newModule: string, newAddress: string, newFunctions: seq<FunctionInfo>)
    ensures WalkState(Scope(newModule, newAddress), newFunctions)
            == Walk(Preorder(n), file, text, WalkState(Scope(currentModule, currentAddress), functions))
    decreases n
  {
    ghost var w := WalkState(Scope(currentModule, currentAddress), functions);
    newModule, newAddress, newFunctions := VisitFunctionNode(n, file, text, currentModule, currentAddress, functions);
    var cs := n.children;
    assert cs[..0] == [];
    var i := 0;
    while i < |cs|
      invariant 0 <= i <= |cs|
      invariant WalkState(Scope(newModule, newAddress), newFunctions)
                == Walk([n] + PreorderSeq(cs[..i]), file, text, w)
    {
      newModule, newAddress, newFunctions := CollectFunctions(cs[i], file, text, newModule, newAddress, newFunctions);
      WalkPreorderStep(n, i, file, text, w);
      i := i + 1;
    }
    assert cs[..i] == cs;
  }

  /** `_extract_functions`. */
  method ExtractFunctions(root: Node, file: string, text: string) returns (functions: seq<FunctionInfo>)
    ensures functions == FunctionsIn(root, file, text)
    ensures |functions| == |FilterKinds(Preorder(root), {FunctionDefinition})|
    ensures forall i :: 0 <= i < |functions| ==> functions[i].filePath == file
  {
    var m, a;
    m, a, functions := CollectFunctions(root, file, text, "", "", []);
    WalkExtends(Preorder(root), file, text, WalkState(Scope("", ""), []));
    forall i | 0 <= i < |functions| ensures functions[i].filePath == file {
      WalkFilePath(Preorder(root), file, text, WalkState(Scope("", ""), []), i);
    }
  }

  lemma {:induction false} WalkFilePath(ns: seq<Node>, file: string, text: string, w: WalkState, i: nat)
    requires forall k :: 0 <= k < |w.functions| ==> w.functions[k].filePath == file
    requires i < |Walk(ns, file, text, w).functions|
    ensures Walk(ns, file, text, w).functions[i].filePath == file
    decreases |ns|
  {
    if ns != [] {
      var prev := Walk(ns[..|ns| - 1], file, text, w);
      if i < |prev.functions| {
        WalkFilePath(ns[..|ns| - 1], file, text, w, i);
      }
      forall k | 0 <= k < |prev.functions| ensures prev.functions[k].filePath == file {
        WalkFilePath(ns[..|ns| - 1], file, text, w, k);
      }
    }
  }
}
