/**
 * The parsed syntax tree, as the tree-sitter parser hands it to the indexer and
 * the call extractor: every node has a kind (`node.type`), a byte range
 * (`start_byte`, `end_byte`) and its children in source order.
 */
module SyntaxTree {
  import opened Options
  import opened Text

  datatype Node = Node(kind: string, startByte: nat, endByte: nat, children: seq<Node>)

  /** `source_code[node.start_byte:node.end_byte]`. */
  function NodeText(text: string, n: Node): string
  {
    Slice(text, n.startByte, n.endByte)
  }

  /** The nodes of the tree rooted at `n` in the order a recursive
      "visit the node, then each child in turn" traversal meets them. */
  function Preorder(n: Node): (r: seq<Node>)
    ensures |r| >= 1 && r[0] == n
    decreases n, 1
  {
    [n] + PreorderSeq(n.children)
  }

  /** The preorders of a sequence of sibling trees, one after the other. */
  function PreorderSeq(cs: seq<Node>): seq<Node>
    decreases cs, 0
  {
    if cs == [] then [] else PreorderSeq(cs[..|cs| - 1]) + Preorder(cs[|cs| - 1])
  }

  /** The preorder of the children up to and including child `i` extends the one before it. */
  lemma PreorderSeqStep(cs: seq<Node>, i: nat)
    requires i < |cs|
    ensures PreorderSeq(cs[..i + 1]) == PreorderSeq(cs[..i]) + Preorder(cs[i])
  {
    assert cs[..i + 1][..i] == cs[..i];
  }

  /** Every node of a child's subtree occurs in the preorder of its parent: the
      traversal reaches nodes nested at any depth. */
  lemma {:induction false} ChildSubtreeInPreorder(n: Node, i: nat, x: Node)
    requires i < |n.children|
    requires x in Preorder(n.children[i])
    ensures x in Preorder(n)
  {
    SubtreeInPreorderSeq(n.children, i, x);
  }

  lemma {:induction false} SubtreeInPreorderSeq(cs: seq<Node>, i: nat, x: Node)
    requires i < |cs|
    requires x in Preorder(cs[i])
    ensures x in PreorderSeq(cs)
    decreases |cs|
  {
    if i < |cs| - 1 {
      SubtreeInPreorderSeq(cs[..|cs| - 1], i, x);
    }
  }

  /** The nodes of `ns` whose kind is in `ks`, in their order in `ns`: the
      list comprehension `[c for c in ns if c.type in ks]`. */
  function FilterKinds(ns: seq<Node>, ks: set<string>): (r: seq<Node>)
    ensures |r| <= |ns|
    ensures forall i :: 0 <= i < |r| ==> r[i].kind in ks
  {
    if ns == [] then []
    else FilterKinds(ns[..|ns| - 1], ks) + (if ns[|ns| - 1].kind in ks then [ns[|ns| - 1]] else [])
  }

  /** Filtering distributes over concatenation, so it keeps the order of `a + b`. */
  lemma {:induction false} FilterKindsAppend(a: seq<Node>, b: seq<Node>, ks: set<string>)
    ensures FilterKinds(a + b, ks) == FilterKinds(a, ks) + FilterKinds(b, ks)
    decreases |b|
  {
    if b == [] {
      assert a + b == a;
    } else {
      assert (a + b)[..|a + b| - 1] == a + b[..|b| - 1];
      FilterKindsAppend(a, b[..|b| - 1], ks);
    }
  }

  lemma FilterKindsStep(ns: seq<Node>, ks: set<string>, i: nat)
    requires i < |ns|
    ensures FilterKinds(ns[..i + 1], ks) == FilterKinds(ns[..i], ks) + (if ns[i].kind in ks then [ns[i]] else [])
  {
    assert ns[..i + 1][..i] == ns[..i];
  }

  lemma FilterKindsSingle(n: Node, ks: set<string>)
    ensures FilterKinds([n], ks) == if n.kind in ks then [n] else []
  {
    assert [n][..0] == [];
  }

  /** Filtering the part of a node's preorder that ends with child `i`'s subtree. */
  lemma FilterKindsPreorderStep(n: Node, i: nat, ks: set<string>)
    requires i < |n.children|
    ensures FilterKinds([n] + PreorderSeq(n.children[..i + 1]), ks)
            == FilterKinds([n] + PreorderSeq(n.children[..i]), ks) + FilterKinds(Preorder(n.children[i]), ks)
  {
    PreorderSeqStep(n.children, i);
    assert [n] + PreorderSeq(n.children[..i + 1]) == [n] + PreorderSeq(n.children[..i]) + Preorder(n.children[i]);
    FilterKindsAppend([n] + PreorderSeq(n.children[..i]), Preorder(n.children[i]), ks);
  }

  /** A node is kept exactly when it is in `ns` and has one of the kinds. */
  lemma {:induction false} FilterKindsMembership(ns: seq<Node>, ks: set<string>, x: Node)
    ensures x in FilterKinds(ns, ks) <==> x in ns && x.kind in ks
    decreases |ns|
  {
    if ns != [] {
      FilterKindsMembership(ns[..|ns| - 1], ks, x);
      assert ns == ns[..|ns| - 1] + [ns[|ns| - 1]];
    }
  }

  /** The kinds of the nodes, in order. */
  function Kinds(ns: seq<Node>): (r: seq<string>)
    ensures |r| == |ns| && forall i :: 0 <= i < |ns| ==> r[i] == ns[i].kind
  {
    if ns == [] then [] else Kinds(ns[..|ns| - 1]) + [ns[|ns| - 1].kind]
  }

  lemma KindsSnoc(ns: seq<Node>, x: Node)
    ensures Kinds(ns + [x]) == Kinds(ns) + [x.kind]
  {
    assert (ns + [x])[..|ns|] == ns;
  }

  /** `any(c.type == k for c in cs)`. */
  function AnyOfKind(cs: seq<Node>, k: string): (r: bool)
    ensures r <==> exists i :: 0 <= i < |cs| && cs[i].kind == k
  {
    if cs == [] then false
    else AnyOfKind(cs[..|cs| - 1], k) || cs[|cs| - 1].kind == k
  }

  lemma AnyOfKindStep(cs: seq<Node>, k: string, i: nat)
    requires i < |cs|
    ensures AnyOfKind(cs[..i + 1], k) == (AnyOfKind(cs[..i], k) || cs[i].kind == k)
  {
    assert cs[..i + 1][..i] == cs[..i];
  }

  /** The position of the first node whose kind is in `ks`: what a `for` loop that
      returns (or breaks) at the first such child finds. */
  function FirstOfKinds(cs: seq<Node>, ks: set<string>): (r: Option<nat>)
    ensures r.Some? ==> r.value < |cs| && cs[r.value].kind in ks
    ensures r.Some? ==> forall j :: 0 <= j < r.value ==> cs[j].kind !in ks
    ensures r.None? ==> forall j :: 0 <= j < |cs| ==> cs[j].kind !in ks
  {
    if cs == [] then None
    else
      match FirstOfKinds(cs[..|cs| - 1], ks)
      case Some(i) => Some(i)
      case None => if cs[|cs| - 1].kind in ks then Some(|cs| - 1) else None
  }

  /** A node of one of the kinds with none before it is the first. */
  lemma FirstOfKindsIs(cs: seq<Node>, ks: set<string>, i: nat)
    requires i < |cs| && cs[i].kind in ks
    requires forall j :: 0 <= j < i ==> cs[j].kind !in ks
    ensures FirstOfKinds(cs, ks) == Some(i)
  {
  }

  /** The position of the last node whose kind is in `ks`: what a `for` loop that
      overwrites a variable at every such child leaves behind. */
  function LastOfKinds(cs: seq<Node>, ks: set<string>): (r: Option<nat>)
    ensures r.Some? ==> r.value < |cs| && cs[r.value].kind in ks
    ensures r.Some? ==> forall j :: r.value < j < |cs| ==> cs[j].kind !in ks
    ensures r.None? ==> forall j :: 0 <= j < |cs| ==> cs[j].kind !in ks
  {
    if cs == [] then None
    else if cs[|cs| - 1].kind in ks then Some(|cs| - 1)
    else LastOfKinds(cs[..|cs| - 1], ks)
  }

  lemma LastOfKindsStep(cs: seq<Node>, ks: set<string>, i: nat)
    requires i < |cs|
    ensures LastOfKinds(cs[..i + 1], ks) == if cs[i].kind in ks then Some(i) else LastOfKinds(cs[..i], ks)
  {
    assert cs[..i + 1][..i] == cs[..i];
  }
}
