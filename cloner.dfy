/**
 * `cloneFormNodes`: a depth-first copy of a node list in which the
 * identifying attributes of the copied elements get a prefix, so that
 * several copies of one form fragment can live side by side. The code is
 * the same in both versions of the library.
 */
module Cloner {
  import opened Wrappers
  import opened Dom
  import ArrayIncludes

  /** Tags whose `id` and `name` are always prefixed. */
  const FORM_ELEMENTS: seq<string> := ["DATALIST", "INPUT", "OPTGROUP", "SELECT", "TEXTAREA"]

  predicate IsFormElement(tag: string) {
    tag in FORM_ELEMENTS
  }

  /**
   * The string `prefix + label.getAttribute('for')` appends: the value, or
   * "null" (JavaScript's rendering of a missing attribute) when absent.
   */
  function LabelFor(attrs: map<string, string>): string {
    match Attribute(attrs, "for")
    case Some(v) => v
    case None => "null"
  }

  /** The attributes of the copy of an element, after every attribute was copied. */
  function RewriteAttributes(tag: string, attrs: map<string, string>, prefix: string): map<string, string> {
    if IsFormElement(tag) then
      attrs["name" := prefix + Reflected(attrs, "name")]["id" := prefix + Reflected(attrs, "id")]
    else if tag == "LABEL" then
      attrs["for" := prefix + LabelFor(attrs)]
    else
      var withId := if Reflected(attrs, "id") != "" then attrs["id" := prefix + attrs["id"]] else attrs;
      if Reflected(attrs, "name") != "" then withId["name" := prefix + attrs["name"]] else withId
  }

  /** The copy of one node and its subtree. */
  function Clone(n: Node, prefix: string): Node
    decreases n
  {
    match n
    case CharacterData(_, _) => n
    case Element(tag, attrs, children) =>
      Element(tag, RewriteAttributes(tag, attrs, prefix), CloneAll(children, prefix))
  }

  /** The copies of a node list, in order. */
  function CloneAll(ns: seq<Node>, prefix: string): (r: seq<Node>)
    ensures |r| == |ns|
    decreases ns
  {
    if ns == [] then [] else CloneAll(ns[..|ns| - 1], prefix) + [Clone(ns[|ns| - 1], prefix)]
  }

  // An independent, attribute-by-attribute statement of the rewriting rules.

  /** Whether the copy's attribute k carries the prefix. */
  predicate Rewrites(tag: string, attrs: map<string, string>, k: string) {
    if IsFormElement(tag) then k == "id" || k == "name"
    else if tag == "LABEL" then k == "for"
    else (k == "id" || k == "name") && k in attrs && attrs[k] != ""
  }

  /** The original value a prefixed attribute is built from. */
  function Original(tag: string, attrs: map<string, string>, k: string): string {
    if IsFormElement(tag) then Reflected(attrs, k) else if tag == "LABEL" then LabelFor(attrs) else Reflected(attrs, k)
  }

  /**
   * The copy has every attribute of the source, plus the prefixed ones the
   * rules add and nothing else; prefixed attributes hold prefix + original
   * value, and all others are verbatim.
   */
  ghost predicate AttributesCloned(tag: string, src: map<string, string>, dst: map<string, string>, prefix: string) {
    && (forall k :: k in dst <==> k in src || Rewrites(tag, src, k))
    && (forall k :: k in dst ==> dst[k] == if Rewrites(tag, src, k) then prefix + Original(tag, src, k) else src[k])
  }

  /**
   * dst is a copy of src: character data verbatim; an element with the same
   * tag, rewritten attributes, and the copies of its children in order.
   */
  ghost predicate IsCloneOf(dst: Node, src: Node, prefix: string)
    decreases src
  {
    match src
    case CharacterData(_, _) => dst == src
    case Element(tag, attrs, children) =>
      && dst.Element? && dst.tag == tag
      && AttributesCloned(tag, attrs, dst.attrs, prefix)
      && |dst.children| == |children|
      && forall i :: 0 <= i < |children| ==> IsCloneOf(dst.children[i], children[i], prefix)
  }

  /** dsts are the copies of srcs, position by position. */
  ghost predicate AreClonesOf(dsts: seq<Node>, srcs: seq<Node>, prefix: string) {
    |dsts| == |srcs| && forall i :: 0 <= i < |srcs| ==> IsCloneOf(dsts[i], srcs[i], prefix)
  }

  lemma {:induction false} CloneAllAt(ns: seq<Node>, prefix: string)
    ensures forall i :: 0 <= i < |ns| ==> CloneAll(ns, prefix)[i] == Clone(ns[i], prefix)
  {
    if ns != [] {
      CloneAllAt(ns[..|ns| - 1], prefix);
    }
  }

  lemma RewriteAttributesCloned(tag: string, attrs: map<string, string>, prefix: string)
    ensures AttributesCloned(tag, attrs, RewriteAttributes(tag, attrs, prefix), prefix)
  {
  }

  /** Clone meets the rules. */
  lemma {:induction false} CloneIsCloneOf(n: Node, prefix: string)
    ensures IsCloneOf(Clone(n, prefix), n, prefix)
    decreases n
  {
    if n.Element? {
      RewriteAttributesCloned(n.tag, n.attrs, prefix);
      CloneAllAreClonesOf(n.children, prefix);
    }
  }

  /** CloneAll meets the rules: same length, same order, each node a copy. */
  lemma {:induction false} CloneAllAreClonesOf(ns: seq<Node>, prefix: string)
    ensures AreClonesOf(CloneAll(ns, prefix), ns, prefix)
    decreases ns
  {
    CloneAllAt(ns, prefix);
    forall i | 0 <= i < |ns|
      ensures IsCloneOf(CloneAll(ns, prefix)[i], ns[i], prefix)
    {
      CloneIsCloneOf(ns[i], prefix);
    }
  }

  /** The rules admit one copy only, so Clone is exactly what they describe. */
  lemma {:induction false} CloneOfIsClone(d: Node, n: Node, prefix: string)
    requires IsCloneOf(d, n, prefix)
    ensures d == Clone(n, prefix)
    decreases n
  {
    if n.Element? {
      var a := RewriteAttributes(n.tag, n.attrs, prefix);
      RewriteAttributesCloned(n.tag, n.attrs, prefix);
      assert d.attrs.Keys == a.Keys;
      assert d.attrs == a;
      CloneAllAt(n.children, prefix);
      forall i | 0 <= i < |n.children|
        ensures d.children[i] == CloneAll(n.children, prefix)[i]
      {
        CloneOfIsClone(d.children[i], n.children[i], prefix);
      }
      assert d.children == CloneAll(n.children, prefix);
    }
  }

  /** The attribute copy loop: every attribute of the source, set one by one on a fresh element. */
  method CopyAttributes(e: LiveElement, attrs: map<string, string>)
    requires e.attrs == map[]
    modifies e
    ensures e.attrs == attrs
    ensures e.tag == old(e.tag) && e.children == old(e.children)
  {
    var pending := attrs.Keys;
    while pending != {}
      invariant pending <= attrs.Keys
      invariant e.tag == old(e.tag) && e.children == old(e.children)
      invariant e.attrs == map k | k in attrs && k !in pending :: attrs[k]
      decreases pending
    {
      var name :| name in pending;
      e.SetAttribute(name, attrs[name]);
      pending := pending - {name};
    }
    assert e.attrs == attrs;
  }

  /** The prefixing step on the copy e of an element with this tag and these attributes. */
  method PrefixIdentifiers(e: LiveElement, tag: string, attrs: map<string, string>, prefix: string)
    requires e.attrs == attrs
    modifies e
    ensures e.attrs == RewriteAttributes(tag, attrs, prefix)
    ensures e.tag == old(e.tag) && e.children == old(e.children)
  {
    var isField := ArrayIncludes.Includes(FORM_ELEMENTS, tag, 0);
    ArrayIncludes.IncludesFromZero(FORM_ELEMENTS, tag);
    if isField {
      // A field: both identifiers get the prefix, present or not.
      e.SetAttribute("name", prefix + Reflected(attrs, "name"));
      e.SetAttribute("id", prefix + Reflected(attrs, "id"));
    } else if tag == "LABEL" {
      // A label: its target gets the prefix.
      e.SetAttribute("for", prefix + LabelFor(attrs));
    } else {
      // Anything else: only identifiers that are non-empty get the prefix.
      if Reflected(attrs, "id") != "" {
        e.SetAttribute("id", prefix + attrs["id"]);
      }
      if Reflected(attrs, "name") != "" {
        e.SetAttribute("name", prefix + attrs["name"]);
      }
    }
  }

  /**
   * `cloneFormNodes(nodes, prefix)`: builds a fresh element per element
   * node, copies its attributes one by one, prefixes the identifying ones,
   * and appends the copies of its children; character data are copied as
   * they are. The source nodes are values and are not changed. The result
   * is CloneAll's, which CloneAllAreClonesOf shows to follow the rules.
   */
  method CloneFormNodes(nodes: seq<Node>, prefix: string) returns (newNodes: seq<Node>)
    ensures newNodes == CloneAll(nodes, prefix)
    decreases nodes
  {
    newNodes := [];
    for i := 0 to |nodes|
      invariant newNodes == CloneAll(nodes[..i], prefix)
    {
      var node := nodes[i];
      var copy: Node;
      if node.Element? {
        var e := new LiveElement(node.tag);
        CopyAttributes(e, node.attrs);
        PrefixIdentifiers(e, node.tag, node.attrs, prefix);
        // The subtree is copied by the recursive call and appended in order.
        if |node.children| > 0 {
          var newChildNodes := CloneFormNodes(node.children, prefix);
          for j := 0 to |newChildNodes|
            invariant e.tag == node.tag && e.attrs == RewriteAttributes(node.tag, node.attrs, prefix)
            invariant e.children == newChildNodes[..j]
          {
            e.AppendChild(newChildNodes[j]);
          }
        }
        assert e.children == CloneAll(node.children, prefix);
        copy := e.Value();
      } else {
        copy := node;
      }
      assert copy == Clone(node, prefix);
      assert nodes[..i + 1][..i] == nodes[..i];
      newNodes := newNodes + [copy];
    }
    assert nodes[..|nodes|] == nodes;
  }

  // Positions at any depth.

  /**
   * The node a path of child indices leads to from a node list: the first
   * index picks a node of the list, each further one a child of the node
   * picked before. None when an index is out of range or a text node would
   * need children.
   */
  function NodeAt(ns: seq<Node>, path: seq<nat>): Option<Node>
    decreases |path|
  {
    if path == [] || path[0] >= |ns| then None
    else if |path| == 1 then Some(ns[path[0]])
    else if ns[path[0]].Element? then NodeAt(ns[path[0]].children, path[1..])
    else None
  }

  /** Nodes appended after a list do not change what a path into the list reaches. */
  lemma NodeAtAppend(ns: seq<Node>, extra: seq<Node>, path: seq<nat>)
    requires NodeAt(ns, path).Some?
    ensures NodeAt(ns + extra, path) == NodeAt(ns, path)
  {
    assert (ns + extra)[path[0]] == ns[path[0]];
  }

  /**
   * Copying keeps the shape of the tree: a path leads somewhere in the
   * copies exactly when it does in the originals, and there it reaches the
   * copy of the original node.
   */
  lemma {:induction false} NodeAtCloneAll(ns: seq<Node>, prefix: string, path: seq<nat>)
    ensures NodeAt(CloneAll(ns, prefix), path).Some? <==> NodeAt(ns, path).Some?
    ensures NodeAt(ns, path).Some? ==> NodeAt(CloneAll(ns, prefix), path) == Some(Clone(NodeAt(ns, path).value, prefix))
    decreases |path|
  {
    CloneAllAt(ns, prefix);
    if path != [] && path[0] < |ns| && |path| > 1 && ns[path[0]].Element? {
      NodeAtCloneAll(ns[path[0]].children, prefix, path[1..]);
    }
  }

  /**
   * A form field at any depth of the originals is, in the copies, a field
   * whose id and name are the prefix followed by the original's id and name
   * (the empty string when the original has none).
   */
  lemma ClonedFieldAt(ns: seq<Node>, prefix: string, path: seq<nat>)
    requires NodeAt(ns, path).Some? && NodeAt(ns, path).value.Element? && IsFormElement(NodeAt(ns, path).value.tag)
    ensures var f := NodeAt(ns, path).value;
      var g := NodeAt(CloneAll(ns, prefix), path);
      && g.Some? && g.value.Element? && g.value.tag == f.tag
      && Attribute(g.value.attrs, "id") == Some(prefix + Reflected(f.attrs, "id"))
      && Attribute(g.value.attrs, "name") == Some(prefix + Reflected(f.attrs, "name"))
  {
    NodeAtCloneAll(ns, prefix, path);
  }
}
