/**
 * The Template constructor function of multiform.js: it captures the child
 * nodes of a base element once, empties that element, and stamps out
 * numbered instances, each a fresh DIV holding prefixed copies of the
 * captured nodes followed by a fixed remove button that points back at it.
 */
module TemplateV2 {
  import opened Wrappers
  import opened ClassTokens
  import opened Dom
  import opened Cloner
  import opened Identifiers

  /** The classes that only mark what is to be copied; instances drop them. */
  const MARKER_CLASSES: seq<string> := ["multiform", "multiform-item"]

  /** The classes every remove button is given, in order. */
  const REMOVE_BUTTON_CLASSES: seq<string> := ["btn", "btn-danger", "multiform-remove"]

  /** The class attribute every remove button is given: "btn btn-danger multiform-remove". */
  const REMOVE_BUTTON_CLASS: string := Serialize(REMOVE_BUTTON_CLASSES)

  /** A remove button before it is pointed at a container; its innerHTML is 'Remove'. */
  const REMOVE_BUTTON_BASE: Node :=
    Element("DIV", map["type" := "button", "class" := REMOVE_BUTTON_CLASS], [CharacterData("#text", "Remove")])

  /** The remove button of the container with id itemContainer. */
  function RemoveButtonNode(itemContainer: string): Node {
    Element("DIV", REMOVE_BUTTON_BASE.attrs["data-itemcontainer" := itemContainer], REMOVE_BUTTON_BASE.children)
  }

  /** The attributes of instance container id, made with the template's classes. */
  function InstanceAttributes(classList: seq<string>, id: string): map<string, string> {
    WithoutClasses(FreshWithClasses(classList), MARKER_CLASSES)["id" := id]
  }

  /** Instance n of a template with these nodes, prefix and classes. */
  function InstanceNode(nodes: seq<Node>, prefix: string, classList: seq<string>, n: nat): Node {
    var instancePrefix := InstancePrefixV2(prefix, n);
    var id := ItemContainerId(instancePrefix);
    Element("DIV", InstanceAttributes(classList, id), CloneAll(nodes, instancePrefix) + [RemoveButtonNode(id)])
  }

  class Template {
    /** Copies of the base element's child nodes; never changed after construction. */
    const nodes: seq<Node>
    const prefix: string
    var currentIteration: nat
    const classList: seq<string>

    ghost predicate Valid()
      reads this
    {
      IsTokenSet(classList)
    }

    /**
     * `new Template(baseObject, prefix)`: copies the base element's classes,
     * then clones and removes its first child node as many times as it had
     * children, and starts counting at 0.
     */
    constructor (baseObject: LiveElement, prefix: string)
      modifies baseObject
      ensures Valid()
      ensures nodes == old(baseObject.children)
      ensures classList == ClassList(old(baseObject.attrs))
      ensures this.prefix == prefix && currentIteration == 0
      ensures baseObject.children == []
      ensures baseObject.tag == old(baseObject.tag) && baseObject.attrs == old(baseObject.attrs)
    {
      // Each instance gets the base element's classes, in order.
      var classes := [];
      var baseClasses := ClassList(baseObject.attrs);
      for classIndex := 0 to |baseClasses|
        invariant classes == baseClasses[..classIndex]
      {
        classes := classes + [baseClasses[classIndex]];
      }
      // Clone the first remaining child and remove it, once per original child.
      var captured := [];
      ghost var childNodes := baseObject.children;
      var nodeCount := |baseObject.children|;
      for nodeIndex := 0 to nodeCount
        invariant captured == childNodes[..nodeIndex]
        invariant baseObject.children == childNodes[nodeIndex..]
        invariant baseObject.tag == old(baseObject.tag) && baseObject.attrs == old(baseObject.attrs)
      {
        captured := captured + [baseObject.children[0]];
        baseObject.RemoveChild(0);
      }
      assert baseClasses[..|baseClasses|] == baseClasses;
      assert childNodes[..nodeCount] == childNodes;
      ClassListIsTokenSet(old(baseObject.attrs));
      this.nodes := captured;
      this.prefix := prefix;
      this.currentIteration := 0;
      this.classList := classes;
    }

    /** `createInstance()`: builds instance number currentIteration and advances the counter. */
    method CreateInstance() returns (instanceContainer: Node)
      requires Valid()
      modifies this`currentIteration
      ensures currentIteration == old(currentIteration) + 1
      ensures instanceContainer == InstanceNode(nodes, prefix, classList, old(currentIteration))
    {
      var container := NewInstanceContainer(classList);
      var removeButton := NewRemoveButton();
      // The prefix names the template only when there is one.
      var instancePrefix := "";
      if prefix != "" {
        instancePrefix := prefix + "_";
      }
      instancePrefix := instancePrefix + Decimal.NatToString(currentIteration) + "-";
      assert instancePrefix == InstancePrefixV2(prefix, currentIteration);
      var id := ItemContainerId(instancePrefix);
      container.SetAttribute("id", id);
      removeButton.SetAttribute("data-itemcontainer", id);
      var clones := CloneFormNodes(nodes, instancePrefix);
      container.AppendChildren(clones);
      // The remove button comes last.
      container.AppendChild(removeButton.Value());
      currentIteration := currentIteration + 1;
      instanceContainer := container.Value();
      assert instanceContainer == Element("DIV", InstanceAttributes(classList, id), clones + [RemoveButtonNode(id)]);
    }
  }

  /** `createElement('div')` with the text 'Remove', type "button" and the remove button's classes. */
  method NewRemoveButton() returns (button: LiveElement)
    ensures fresh(button) && button.Value() == REMOVE_BUTTON_BASE
  {
    button := new LiveElement("DIV");
    button.AppendChild(CharacterData("#text", "Remove"));
    button.SetAttribute("type", "button");
    button.SetAttribute("class", REMOVE_BUTTON_CLASS);
  }

  /** A new DIV given each class of the token set classList in turn, then stripped of the marker classes. */
  method NewInstanceContainer(classList: seq<string>) returns (container: LiveElement)
    requires IsTokenSet(classList)
    ensures fresh(container)
    ensures container.tag == "DIV" && container.children == []
    ensures container.attrs == WithoutClasses(FreshWithClasses(classList), MARKER_CLASSES)
  {
    container := new LiveElement("DIV");
    for classIndex := 0 to |classList|
      invariant container.tag == "DIV" && container.children == []
      invariant container.attrs == FreshWithClasses(classList[..classIndex])
    {
      assert classList[..classIndex + 1] == AddToken(classList[..classIndex], classList[classIndex]);
      AddToFresh(classList[..classIndex], classList[classIndex]);
      container.AddClass(classList[classIndex]);
    }
    assert classList[..|classList|] == classList;
    // The marker classes only identify what is to be copied.
    container.RemoveClasses(MARKER_CLASSES);
  }

  // What an instance is.

  /**
   * Instance n is a DIV with id [prefix_]n-item_container carrying the
   * template's classes except the two marker classes, in order; its
   * children are the copies of the template nodes made with that instance
   * prefix, in order, and then the remove button for that id.
   */
  lemma InstanceShape(nodes: seq<Node>, prefix: string, classList: seq<string>, n: nat)
    requires IsTokenSet(classList)
    ensures var r := InstanceNode(nodes, prefix, classList, n);
      && r.Element? && r.tag == "DIV"
      && Id(r) == ItemContainerId(InstancePrefixV2(prefix, n))
      && ClassList(r.attrs) == RemoveTokens(classList, MARKER_CLASSES)
      && |r.children| == |nodes| + 1
      && AreClonesOf(r.children[..|nodes|], nodes, InstancePrefixV2(prefix, n))
      && r.children[|nodes|] == RemoveButtonNode(Id(r))
  {
    var r := InstanceNode(nodes, prefix, classList, n);
    var base := FreshWithClasses(classList);
    FreshWithClassesFacts(classList);
    ClassListWithoutClasses(base, MARKER_CLASSES);
    ClassListOtherUpdate(WithoutClasses(base, MARKER_CLASSES), "id", Id(r));
    CloneAllAreClonesOf(nodes, InstancePrefixV2(prefix, n));
    assert r.children[..|nodes|] == CloneAll(nodes, InstancePrefixV2(prefix, n));
  }

  /**
   * An instance keeps exactly the template classes other than "multiform"
   * and "multiform-item", and has no attribute besides its id and classes.
   */
  lemma InstanceClasses(nodes: seq<Node>, prefix: string, classList: seq<string>, n: nat)
    requires IsTokenSet(classList)
    ensures var r := InstanceNode(nodes, prefix, classList, n);
      && r.Element?
      && (forall c :: c in ClassList(r.attrs) <==> c in classList && c != "multiform" && c != "multiform-item")
      && forall k :: k != "id" && k != "class" ==> k !in r.attrs
  {
    InstanceShape(nodes, prefix, classList, n);
    RemoveTokensKeepsTokenSet(classList, MARKER_CLASSES);
    var base := FreshWithClasses(classList);
    FreshWithClassesFacts(classList);
    ClassListWithoutClasses(base, MARKER_CLASSES);
  }

  /** The class attribute is the three classes joined by spaces. */
  lemma RemoveButtonClassText()
    ensures REMOVE_BUTTON_CLASS == "btn btn-danger multiform-remove"
  {
    assert Serialize(REMOVE_BUTTON_CLASSES[2..]) == "multiform-remove";
    assert Serialize(REMOVE_BUTTON_CLASSES[1..]) == "btn-danger multiform-remove";
  }

  /**
   * The remove button is a button whose classes are btn, btn-danger and
   * multiform-remove, whose data-itemcontainer names the instance's
   * container, and whose only child is the text 'Remove'.
   */
  lemma RemoveButtonFacts(itemContainer: string)
    ensures var b := RemoveButtonNode(itemContainer);
      && b.Element?
      && Attribute(b.attrs, "type") == Some("button")
      && ClassList(b.attrs) == ["btn", "btn-danger", "multiform-remove"]
      && Attribute(b.attrs, "data-itemcontainer") == Some(itemContainer)
      && b.children == [CharacterData("#text", "Remove")]
  {
    var b := RemoveButtonNode(itemContainer);
    assert IsTokenSet(REMOVE_BUTTON_CLASSES);
    assert Reflected(b.attrs, "class") == Serialize(REMOVE_BUTTON_CLASSES);
    ParseSerialized(REMOVE_BUTTON_CLASSES);
  }

  /**
   * No double prefixing: in every instance a form field at any depth of
   * the template (path names its position among the template's nodes) has
   * an id and a name that are the instance prefix followed by the template
   * field's own, unprefixed values.
   */
  lemma InstanceFieldNames(nodes: seq<Node>, prefix: string, classList: seq<string>, n: nat, path: seq<nat>)
    requires NodeAt(nodes, path).Some? && NodeAt(nodes, path).value.Element? && IsFormElement(NodeAt(nodes, path).value.tag)
    ensures var field := NodeAt(InstanceNode(nodes, prefix, classList, n).children, path);
      var original := NodeAt(nodes, path).value;
      && field.Some? && field.value.Element? && field.value.tag == original.tag
      && Attribute(field.value.attrs, "id") == Some(InstancePrefixV2(prefix, n) + Reflected(original.attrs, "id"))
      && Attribute(field.value.attrs, "name") == Some(InstancePrefixV2(prefix, n) + Reflected(original.attrs, "name"))
  {
    var p := InstancePrefixV2(prefix, n);
    var r := InstanceNode(nodes, prefix, classList, n);
    var b := RemoveButtonNode(ItemContainerId(p));
    assert r.children == CloneAll(nodes, p) + [b];
    ClonedFieldAt(nodes, p, path);
    NodeAtAppend(CloneAll(nodes, p), [b], path);
  }

  /**
   * The fields of two different instances never share an id, wherever they
   * sit in the template and whatever the template's ids are.
   */
  lemma FieldIdsNeverCollide(nodes: seq<Node>, prefix: string, classList: seq<string>,
                             m: nat, n: nat, p: seq<nat>, q: seq<nat>)
    requires NodeAt(nodes, p).Some? && NodeAt(nodes, p).value.Element? && IsFormElement(NodeAt(nodes, p).value.tag)
    requires NodeAt(nodes, q).Some? && NodeAt(nodes, q).value.Element? && IsFormElement(NodeAt(nodes, q).value.tag)
    requires m != n
    ensures var a := NodeAt(InstanceNode(nodes, prefix, classList, m).children, p);
      var b := NodeAt(InstanceNode(nodes, prefix, classList, n).children, q);
      a.Some? && b.Some? && Id(a.value) != Id(b.value)
  {
    InstanceFieldNames(nodes, prefix, classList, m, p);
    InstanceFieldNames(nodes, prefix, classList, n, q);
    var a := NodeAt(InstanceNode(nodes, prefix, classList, m).children, p).value;
    var b := NodeAt(InstanceNode(nodes, prefix, classList, n).children, q).value;
    if Id(a) == Id(b) {
      PrefixedNamesDistinctV2(prefix, m, n, Reflected(NodeAt(nodes, p).value.attrs, "id"), Reflected(NodeAt(nodes, q).value.attrs, "id"));
    }
  }
}
