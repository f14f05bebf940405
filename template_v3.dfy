/**
 * The Template class of js/multiform.js: it captures the child nodes of a
 * base element once, empties that element, and stamps out numbered
 * instances, each a fresh container holding prefixed copies of the captured
 * nodes followed by a remove button that points back at the container.
 */
module TemplateV3 {
  import opened Wrappers
  import opened ClassTokens
  import opened Dom
  import opened Cloner
  import opened Identifiers

  /** The remove button made when the Template was given none; its innerHTML is 'Remove'. */
  const DEFAULT_REMOVE_BUTTON: Node := Element("DIV", map[], [CharacterData("#text", "Remove")])

  /** The element a remove button starts from: a copy of the given one, or the default. */
  function RemoveButtonBase(removeButton: Option<Node>): Node {
    if removeButton.Some? then removeButton.value else DEFAULT_REMOVE_BUTTON
  }

  /** The button's type becomes "button" only if it has none. */
  function WithButtonType(attrs: map<string, string>): map<string, string> {
    if Reflected(attrs, "type") == "" then attrs["type" := "button"] else attrs
  }

  /**
   * The Bootstrap classes the library gives a button with class list cl:
   * "btn" is added, then variant unless the class attribute then starts
   * with "btn-" (the jQuery filter `*[class^='btn-']`).
   */
  function BootstrapClasses(cl: seq<string>, variant: string): seq<string> {
    var withBtn := AddToken(cl, "btn");
    if !StartsWith(Serialize(withBtn), "btn-") then AddToken(withBtn, variant) else withBtn
  }

  /** The class list of a remove button that started with class list cl. */
  function ButtonClassList(cl: seq<string>): seq<string> {
    AddToken(BootstrapClasses(cl, "btn-danger"), "multiform-remove")
  }

  /** The attributes of a remove button made from one with attributes attrs, before it is pointed at a container. */
  function StyledRemoveAttributes(attrs: map<string, string>): map<string, string> {
    WithClassList(WithButtonType(attrs), ButtonClassList(ClassList(attrs)))
  }

  /** The remove button of the container with id itemContainer, made from base. */
  function RemoveButtonNode(base: Node, itemContainer: string): Node
    requires base.Element?
  {
    Element(base.tag, StyledRemoveAttributes(base.attrs)["data-itemcontainer" := itemContainer], base.children)
  }

  /** Instance n of a template with these nodes, prefix, classes and remove button. */
  function InstanceNode(nodes: seq<Node>, prefix: string, classList: seq<string>, removeButton: Option<Node>, n: nat): Node
    requires removeButton.Some? ==> removeButton.value.Element?
  {
    var instancePrefix := InstancePrefix(prefix, n);
    var id := ItemContainerId(instancePrefix);
    Element("DIV", FreshWithClasses(classList)["id" := id],
            CloneAll(nodes, instancePrefix) + [RemoveButtonNode(RemoveButtonBase(removeButton), id)])
  }

  class Template {
    /** Copies of the base element's child nodes; never changed after construction. */
    const nodes: seq<Node>
    const prefix: string
    var currentIteration: nat
    const classList: seq<string>
    const removeButton: Option<Node>

    ghost predicate Valid()
      reads this
    {
      IsTokenSet(classList) && (removeButton.Some? ==> removeButton.value.Element?)
    }

    /**
     * `new Template({baseObject, prefix, removeButton, iteration})`, an
     * omitted iteration being 0: copies the base element's classes, moves
     * its child nodes into `nodes` in order, and leaves it empty.
     */
    constructor (baseObject: LiveElement, prefix: string, removeButton: Option<Node>, iteration: nat)
      requires removeButton.Some? ==> removeButton.value.Element?
      modifies baseObject
      ensures Valid()
      ensures nodes == old(baseObject.children)
      ensures classList == ClassList(old(baseObject.attrs))
      ensures this.prefix == prefix && this.removeButton == removeButton && currentIteration == iteration
      ensures baseObject.children == []
      ensures baseObject.tag == old(baseObject.tag) && baseObject.attrs == old(baseObject.attrs)
    {
      // Each instance gets the base element's classes, in order.
      var classes := [];
      var baseClasses := ClassList(baseObject.attrs);
      for i := 0 to |baseClasses|
        invariant classes == baseClasses[..i]
      {
        classes := classes + [baseClasses[i]];
      }
      // Capture the base element's nodes and remove the originals.
      var captured := [];
      var childNodes := baseObject.children;
      for i := 0 to |childNodes|
        invariant captured == childNodes[..i]
        invariant baseObject.children == childNodes[i..]
        invariant baseObject.tag == old(baseObject.tag) && baseObject.attrs == old(baseObject.attrs)
      {
        captured := captured + [childNodes[i]];
        baseObject.RemoveChild(0);
      }
      assert baseClasses[..|baseClasses|] == baseClasses;
      assert childNodes[..|childNodes|] == childNodes;
      ClassListIsTokenSet(old(baseObject.attrs));
      this.nodes := captured;
      this.prefix := prefix;
      this.currentIteration := iteration;
      this.classList := classes;
      this.removeButton := removeButton;
    }

    /** `instance()`: builds instance number currentIteration and advances the counter. */
    method Instance() returns (instanceContainer: Node)
      requires Valid()
      modifies this`currentIteration
      ensures currentIteration == old(currentIteration) + 1
      ensures instanceContainer == InstanceNode(nodes, prefix, classList, removeButton, old(currentIteration))
    {
      var instancePrefix := InstancePrefix(prefix, currentIteration);
      var id := ItemContainerId(instancePrefix);
      var container := NewInstanceContainer(classList);
      var clones := CloneFormNodes(nodes, instancePrefix);
      var button := MakeRemoveButton(removeButton, id);
      container.SetAttribute("id", id);
      container.AppendChildren(clones);
      // The remove button comes last.
      container.AppendChild(button);
      currentIteration := currentIteration + 1;
      instanceContainer := container.Value();
      assert instanceContainer == Element("DIV", FreshWithClasses(classList)["id" := id], clones + [button]);
    }

    /**
     * `createInstance()` in js/multiform.js builds an instance but has no
     * return statement, so all a caller observes is the counter advancing.
     */
    method CreateInstance()
      modifies this`currentIteration
      ensures currentIteration == old(currentIteration) + 1
    {
      currentIteration := currentIteration + 1;
    }
  }

  /** A new DIV given each class of the token set classList in turn. */
  method NewInstanceContainer(classList: seq<string>) returns (container: LiveElement)
    requires IsTokenSet(classList)
    ensures fresh(container)
    ensures container.tag == "DIV" && container.attrs == FreshWithClasses(classList) && container.children == []
  {
    container := new LiveElement("DIV");
    for classIndex := 0 to |classList|
      invariant container.tag == "DIV" && container.children == []
      invariant container.attrs == FreshWithClasses(classList[..classIndex])
    {
      assert classList[..classIndex + 1] == AddToken(classList[..classIndex], classList[classIndex]);
      AddToFresh(classList[..classIndex], classList[classIndex]);
      container.AddClass(classList[classIndex]);
    }
    assert classList[..|classList|] == classList;
  }

  /**
   * The remove button for the container with id itemContainer: a copy of
   * the given button or the default, styled, then pointed at the container.
   */
  method MakeRemoveButton(removeButton: Option<Node>, itemContainer: string) returns (b: Node)
    requires removeButton.Some? ==> removeButton.value.Element?
    ensures b == RemoveButtonNode(RemoveButtonBase(removeButton), itemContainer)
  {
    var button := NewRemoveButton(removeButton);
    StyleRemoveButton(button);
    button.SetAttribute("data-itemcontainer", itemContainer);
    b := button.Value();
  }

  /** The element a remove button starts from, as a live element. */
  method NewRemoveButton(removeButton: Option<Node>) returns (button: LiveElement)
    requires removeButton.Some? ==> removeButton.value.Element?
    ensures fresh(button) && button.Value() == RemoveButtonBase(removeButton)
  {
    if removeButton.Some? {
      button := new LiveElement.FromNode(removeButton.value);
    } else {
      button := new LiveElement("DIV");
      button.AppendChild(CharacterData("#text", "Remove"));
    }
  }

  lemma LibraryTokens()
    ensures IsToken("btn") && IsToken("btn-danger") && IsToken("btn-success") && IsToken("multiform-remove")
  {
  }

  /** `classList.add('btn')`, then `classList.add(variant)` unless the class attribute starts with "btn-". */
  method AddBootstrapClasses(button: LiveElement, variant: string)
    requires IsToken(variant)
    modifies button
    ensures button.attrs == WithClassList(old(button.attrs), BootstrapClasses(ClassList(old(button.attrs)), variant))
    ensures button.tag == old(button.tag) && button.children == old(button.children)
  {
    ghost var attrs := button.attrs;
    ghost var withBtn := AddToken(ClassList(attrs), "btn");
    ClassListIsTokenSet(attrs);
    LibraryTokens();
    button.AddClass("btn");
    AddTokenKeepsTokenSet(ClassList(attrs), "btn");
    if !StartsWith(Reflected(button.attrs, "class"), "btn-") {
      button.AddClass(variant);
      WithClassOnWritten(attrs, withBtn, variant);
    }
  }

  /** The library's styling of a remove button, in the order the calls are made. */
  method StyleRemoveButton(button: LiveElement)
    modifies button
    ensures button.attrs == StyledRemoveAttributes(old(button.attrs))
    ensures button.tag == old(button.tag) && button.children == old(button.children)
  {
    ghost var typed := WithButtonType(button.attrs);
    ghost var cl := ClassList(button.attrs);
    ClassListIsTokenSet(button.attrs);
    ClassListOtherUpdate(button.attrs, "type", "button");
    LibraryTokens();
    // An existing type wins over the default.
    if Reflected(button.attrs, "type") == "" {
      button.SetAttribute("type", "button");
    }
    assert button.attrs == typed && ClassList(typed) == cl;
    AddBootstrapClasses(button, "btn-danger");
    BootstrapClassesFacts(cl, "btn-danger");
    button.AddClass("multiform-remove");
    WithClassOnWritten(typed, BootstrapClasses(cl, "btn-danger"), "multiform-remove");
  }

  // What an instance is.

  /**
   * Instance n is a DIV with id prefix_n-item_container and the template's
   * classes, and no other attribute; its children are the copies of the template nodes made with
   * prefix prefix_n-, in order, and then the remove button for that id.
   */
  lemma InstanceShape(nodes: seq<Node>, prefix: string, classList: seq<string>, removeButton: Option<Node>, n: nat)
    requires IsTokenSet(classList)
    requires removeButton.Some? ==> removeButton.value.Element?
    ensures var r := InstanceNode(nodes, prefix, classList, removeButton, n);
      && r.Element? && r.tag == "DIV"
      && Id(r) == ItemContainerId(InstancePrefix(prefix, n))
      && ClassList(r.attrs) == classList
      && |r.children| == |nodes| + 1
      && AreClonesOf(r.children[..|nodes|], nodes, InstancePrefix(prefix, n))
      && r.children[|nodes|] == RemoveButtonNode(RemoveButtonBase(removeButton), Id(r))
      && forall k :: k != "id" && k != "class" ==> k !in r.attrs
  {
    var r := InstanceNode(nodes, prefix, classList, removeButton, n);
    FreshWithClassesFacts(classList);
    ClassListOtherUpdate(FreshWithClasses(classList), "id", Id(r));
    CloneAllAreClonesOf(nodes, InstancePrefix(prefix, n));
    assert r.children[..|nodes|] == CloneAll(nodes, InstancePrefix(prefix, n));
  }

  /**
   * Once "btn" is added, the class attribute starts with "btn-" exactly when
   * the first class the button came with does: "btn" itself does not, and
   * later tokens follow a space.
   */
  lemma VariantRule(cl: seq<string>)
    requires IsTokenSet(cl)
    ensures StartsWith(Serialize(AddToken(cl, "btn")), "btn-") <==> cl != [] && StartsWith(cl[0], "btn-")
  {
    var withBtn := AddToken(cl, "btn");
    LibraryTokens();
    assert withBtn[0] == if cl == [] then "btn" else cl[0];
    SerializeStartsWith(withBtn, "btn-");
  }

  /**
   * A serialized token list starts with a whitespace-free p exactly when its
   * first token does.
   */
  lemma SerializeStartsWith(ts: seq<string>, p: string)
    requires ts != [] && AllTokens(ts) && IsToken(p)
    ensures StartsWith(Serialize(ts), p) <==> StartsWith(ts[0], p)
  {
    var s := Serialize(ts);
    var rest := if |ts| == 1 then "" else " " + Serialize(ts[1..]);
    assert s == ts[0] + rest;
    if |p| <= |ts[0]| {
      assert s[..|p|] == ts[0][..|p|];
    } else if |p| <= |s| {
      assert rest != [] && rest[0] == ' ';
      assert s[|ts[0]|] == ' ';
      assert s[..|p|][|ts[0]|] == ' ' != p[|ts[0]|];
    }
  }

  /**
   * A button keeps every class it came with, first and in order, gains
   * "btn", gains variant unless it had it or its first class starts with
   * "btn-", and gains nothing else.
   */
  lemma BootstrapClassesFacts(cl: seq<string>, variant: string)
    requires IsTokenSet(cl) && IsToken(variant)
    ensures var r := BootstrapClasses(cl, variant);
      && IsTokenSet(r)
      && |cl| <= |r| && r[..|cl|] == cl
      && "btn" in r
      && (variant in r <==> variant in cl || variant == "btn" || cl == [] || !StartsWith(cl[0], "btn-"))
      && forall t :: t in r ==> t in cl || t == "btn" || t == variant
  {
    LibraryTokens();
    VariantRule(cl);
    var withBtn := AddToken(cl, "btn");
    AddTokenFacts(cl, "btn");
    if !StartsWith(Serialize(withBtn), "btn-") {
      AddTokenFacts(withBtn, variant);
      var r := AddToken(withBtn, variant);
      assert r[..|cl|] == r[..|withBtn|][..|cl|];
    }
  }

  /**
   * A remove button keeps every class it came with, first and in order,
   * gains "btn" and "multiform-remove", gains "btn-danger" unless it had it
   * or its first class starts with "btn-", and gains nothing else.
   */
  lemma ButtonClassListFacts(cl: seq<string>)
    requires IsTokenSet(cl)
    ensures var r := ButtonClassList(cl);
      && IsTokenSet(r)
      && |cl| <= |r| && r[..|cl|] == cl
      && "btn" in r && "multiform-remove" in r
      && ("btn-danger" in r <==> "btn-danger" in cl || cl == [] || !StartsWith(cl[0], "btn-"))
      && forall t :: t in r ==> t in cl || t == "btn" || t == "btn-danger" || t == "multiform-remove"
  {
    LibraryTokens();
    var styled := BootstrapClasses(cl, "btn-danger");
    BootstrapClassesFacts(cl, "btn-danger");
    AddTokenFacts(styled, "multiform-remove");
    var r := AddToken(styled, "multiform-remove");
    assert r[..|cl|] == r[..|styled|][..|cl|];
  }

  // The variant rule as written, against the one its comment describes.

  /**
   * A button with classes "foo btn-primary" already has a variant, but its
   * first class does not start with "btn-", so it is given a second one.
   */
  lemma LaterVariantIgnored(variant: string)
    requires IsToken(variant) && variant != "btn-primary"
    ensures var r := BootstrapClasses(["foo", "btn-primary"], variant);
      "btn-primary" in r && variant in r
  {
    var cl := ["foo", "btn-primary"];
    assert IsToken(cl[0]) && IsToken(cl[1]);
    assert !StartsWith(cl[0], "btn-");
    BootstrapClassesFacts(cl, variant);
    var r := BootstrapClasses(cl, variant);
    assert r[..|cl|][1] == "btn-primary";
  }

  /** Whether some class of cl is a Bootstrap button variant. */
  predicate HasVariant(cl: seq<string>) {
    exists i :: 0 <= i < |cl| && StartsWith(cl[i], "btn-")
  }

  /** "btn" is added, then variant only if no class is a variant yet. */
  function IntendedBootstrapClasses(cl: seq<string>, variant: string): seq<string> {
    var withBtn := AddToken(cl, "btn");
    if !HasVariant(cl) then AddToken(withBtn, variant) else withBtn
  }

  /**
   * Under the intended rule a button always ends with a variant, and a
   * variant is added only to a button that had none: the one added is
   * variant itself.
   */
  lemma IntendedBootstrapClassesFacts(cl: seq<string>, variant: string)
    requires IsTokenSet(cl) && IsToken(variant) && StartsWith(variant, "btn-")
    ensures var r := IntendedBootstrapClasses(cl, variant);
      && IsTokenSet(r)
      && |cl| <= |r| && r[..|cl|] == cl
      && "btn" in r
      && HasVariant(r)
      && forall t :: t in r && StartsWith(t, "btn-") && t !in cl ==> t == variant && !HasVariant(cl)
  {
    LibraryTokens();
    var withBtn := AddToken(cl, "btn");
    AddTokenFacts(cl, "btn");
    var r := IntendedBootstrapClasses(cl, variant);
    assert !StartsWith("btn", "btn-");
    if HasVariant(cl) {
      var i :| 0 <= i < |cl| && StartsWith(cl[i], "btn-");
      assert r[..|cl|][i] == r[i];
    } else {
      AddTokenFacts(withBtn, variant);
      assert r[..|cl|] == r[..|withBtn|][..|cl|];
      var j :| 0 <= j < |r| && r[j] == variant;
    }
  }

  /**
   * The remove button keeps the base element's tag, children and other
   * attributes; its type is "button" if it had none; its class list is
   * ButtonClassList of its own; and its data-itemcontainer names the
   * instance's container.
   */
  lemma RemoveButtonFacts(base: Node, itemContainer: string)
    requires base.Element?
    ensures var b := RemoveButtonNode(base, itemContainer);
      && b.Element? && b.tag == base.tag && b.children == base.children
      && Attribute(b.attrs, "data-itemcontainer") == Some(itemContainer)
      && Reflected(b.attrs, "type") == (if Reflected(base.attrs, "type") == "" then "button" else base.attrs["type"])
      && ClassList(b.attrs) == ButtonClassList(ClassList(base.attrs))
      && forall k :: k != "type" && k != "class" && k != "data-itemcontainer" ==> Attribute(b.attrs, k) == Attribute(base.attrs, k)
  {
    var typed := WithButtonType(base.attrs);
    var cl := ClassList(base.attrs);
    ClassListIsTokenSet(base.attrs);
    ButtonClassListFacts(cl);
    ClassListWithClassList(typed, ButtonClassList(cl));
    ClassListOtherUpdate(WithClassList(typed, ButtonClassList(cl)), "data-itemcontainer", itemContainer);
  }

  /**
   * No double prefixing: in every instance a form field at any depth of
   * the template (path names its position among the template's nodes) has
   * an id and a name that are the instance prefix followed by the template
   * field's own, unprefixed values.
   */
  lemma InstanceFieldNames(nodes: seq<Node>, prefix: string, classList: seq<string>, removeButton: Option<Node>,
                           n: nat, path: seq<nat>)
    requires removeButton.Some? ==> removeButton.value.Element?
    requires NodeAt(nodes, path).Some? && NodeAt(nodes, path).value.Element? && IsFormElement(NodeAt(nodes, path).value.tag)
    ensures var field := NodeAt(InstanceNode(nodes, prefix, classList, removeButton, n).children, path);
      var original := NodeAt(nodes, path).value;
      && field.Some? && field.value.Element? && field.value.tag == original.tag
      && Attribute(field.value.attrs, "id") == Some(InstancePrefix(prefix, n) + Reflected(original.attrs, "id"))
      && Attribute(field.value.attrs, "name") == Some(InstancePrefix(prefix, n) + Reflected(original.attrs, "name"))
  {
    var p := InstancePrefix(prefix, n);
    var r := InstanceNode(nodes, prefix, classList, removeButton, n);
    var b := RemoveButtonNode(RemoveButtonBase(removeButton), ItemContainerId(p));
    assert r.children == CloneAll(nodes, p) + [b];
    ClonedFieldAt(nodes, p, path);
    NodeAtAppend(CloneAll(nodes, p), [b], path);
  }

  /**
   * The fields of two different instances never share an id, wherever they
   * sit in the template and whatever the template's ids are.
   */
  lemma FieldIdsNeverCollide(nodes: seq<Node>, prefix: string, classList: seq<string>, removeButton: Option<Node>,
                             m: nat, n: nat, p: seq<nat>, q: seq<nat>)
    requires removeButton.Some? ==> removeButton.value.Element?
    requires NodeAt(nodes, p).Some? && NodeAt(nodes, p).value.Element? && IsFormElement(NodeAt(nodes, p).value.tag)
    requires NodeAt(nodes, q).Some? && NodeAt(nodes, q).value.Element? && IsFormElement(NodeAt(nodes, q).value.tag)
    requires m != n
    ensures var a := NodeAt(InstanceNode(nodes, prefix, classList, removeButton, m).children, p);
      var b := NodeAt(InstanceNode(nodes, prefix, classList, removeButton, n).children, q);
      a.Some? && b.Some? && Id(a.value) != Id(b.value)
  {
    InstanceFieldNames(nodes, prefix, classList, removeButton, m, p);
    InstanceFieldNames(nodes, prefix, classList, removeButton, n, q);
    var a := NodeAt(InstanceNode(nodes, prefix, classList, removeButton, m).children, p).value;
    var b := NodeAt(InstanceNode(nodes, prefix, classList, removeButton, n).children, q).value;
    if Id(a) == Id(b) {
      PrefixedNamesDistinct(prefix, m, n, Reflected(NodeAt(nodes, p).value.attrs, "id"), Reflected(NodeAt(nodes, q).value.attrs, "id"));
    }
  }
}
