/**
 * The multiFormInstance controller of js/multiform.js and the
 * `multiForm.forms` registry: a container element marked with a
 * data-prefix becomes a repeatable form. Its add button moves into a
 * controls element, its remove-button template is taken out, the rest of
 * its children become the main Template, pre-populated items are turned
 * into instances 0 .. k-1, and instance k follows; each add appends the
 * next instance.
 */
module MultiFormV3 {
  import opened Wrappers
  import opened ClassTokens
  import opened Dom
  import opened Identifiers
  import opened TemplateV3

  /**
   * `$(container).data('prefix')`. A missing attribute is undefined, which
   * string concatenation turns into "undefined".
   */
  function DataPrefix(attrs: map<string, string>): string {
    if "data-prefix" in attrs then attrs["data-prefix"] else "undefined"
  }

  /** The add button made when the page has none; its innerHTML is 'Add'. */
  const DEFAULT_ADD_BUTTON: Node := Element("DIV", map[], [CharacterData("#text", "Add")])

  /** The remove button made when the container has no template for one; its innerHTML is 'X'. */
  const DEFAULT_X_BUTTON: Node := Element("DIV", map[], [CharacterData("#text", "X")])

  // The add button and the controls element.

  /** The attributes of an add button after setupControls styled it. */
  function AddButtonAttributes(attrs: map<string, string>, prefix: string): map<string, string> {
    var classed := WithClassList(attrs, BootstrapClasses(ClassList(attrs), "btn-success"));
    WithButtonType(classed["id" := prefix + "-multiform_add"])
  }

  function StyledAddButton(n: Node, prefix: string): Node
    requires n.Element?
  {
    Element(n.tag, AddButtonAttributes(n.attrs, prefix), n.children)
  }

  /** Where the add-button template `#<prefix>-add_button` sits among the container's children, if there. */
  function AddTemplateIndex(cs: seq<Node>, prefix: string): Option<nat> {
    FirstChild(cs, ById(prefix + "-add_button"))
  }

  /** The container's children once setupControls has taken the add-button template out. */
  function AfterControls(cs: seq<Node>, prefix: string): seq<Node> {
    match AddTemplateIndex(cs, prefix)
    case Some(i) => RemoveAt(cs, i)
    case None => cs
  }

  /**
   * What the controls element holds: the styled copy of the template found
   * in the container, nothing when the page's own add button is used where
   * it is, or the styled default button.
   */
  function ControlsChildren(cs: seq<Node>, prefix: string, pageHasAddButton: bool): seq<Node> {
    match AddTemplateIndex(cs, prefix)
    case Some(i) => [StyledAddButton(cs[i], prefix)]
    case None => if pageHasAddButton then [] else [StyledAddButton(DEFAULT_ADD_BUTTON, prefix)]
  }

  function ControlsNode(prefix: string, buttons: seq<Node>): Node {
    Element("DIV", map["id" := prefix + "-multiform_controls"], buttons)
  }

  // The remove button.

  /**
   * The layouts setupRemoveButton handles: a `.remove-container` child of the
   * container must hold a `.remove-button` child, since the branch for an
   * empty one names an undeclared variable.
   */
  predicate SupportedRemoveLayout(cs: seq<Node>) {
    match FirstChild(cs, ByClass("remove-container"))
    case Some(c) => FirstChild(cs[c].children, ByClass("remove-button")).Some?
    case None => true
  }

  /** The element the remove button starts from. */
  function RemoveButtonTemplate(cs: seq<Node>): (r: Node)
    requires SupportedRemoveLayout(cs)
    ensures r.Element?
  {
    match FirstChild(cs, ByClass("remove-container"))
    case Some(c) => cs[c].children[FirstChild(cs[c].children, ByClass("remove-button")).value]
    case None =>
      match FirstChild(cs, ByClass("remove-button"))
      case Some(b) => cs[b]
      case None => DEFAULT_X_BUTTON
  }

  /** The container's children once setupRemoveButton has taken the remove-button template out. */
  function AfterRemoveSetup(cs: seq<Node>): seq<Node>
    requires SupportedRemoveLayout(cs)
  {
    match FirstChild(cs, ByClass("remove-container"))
    case Some(c) =>
      var b := FirstChild(cs[c].children, ByClass("remove-button")).value;
      cs[c := Element(cs[c].tag, cs[c].attrs, RemoveAt(cs[c].children, b))]
    case None =>
      match FirstChild(cs, ByClass("remove-button"))
      case Some(b) => RemoveAt(cs, b)
      case None => cs
  }

  /** The remove button given the class `<prefix>-multiform_remove`. */
  function MarkedRemoveButton(n: Node, prefix: string): Node
    requires n.Element?
  {
    Element(n.tag, WithClass(n.attrs, prefix + "-multiform_remove"), n.children)
  }

  /**
   * Whether setupRemoveButton runs to its end on these children: the
   * branch that names an undeclared variable is not taken, and the class it
   * adds is a single token, which classList.add demands (a data-prefix with
   * whitespace in it makes the call throw).
   */
  predicate RemoveSetupCompletes(cs: seq<Node>, prefix: string) {
    SupportedRemoveLayout(cs) && IsToken(prefix + "-multiform_remove")
  }

  /**
   * The container's children once setupRemoveButton has run, to its end or
   * up to its exception: the template is taken out before the class is
   * added, and nothing is taken out on the branch that throws first.
   */
  function AfterRemoveAttempt(cs: seq<Node>): seq<Node> {
    if SupportedRemoveLayout(cs) then AfterRemoveSetup(cs) else cs
  }

  /** Instances from .. to-1 of the main template. */
  function MainInstances(nodes: seq<Node>, prefix: string, classList: seq<string>, removeButton: Option<Node>,
                         from: nat, to: nat): (r: seq<Node>)
    requires from <= to
    requires removeButton.Some? ==> removeButton.value.Element?
    ensures |r| == to - from
  {
    seq(to - from, k requires 0 <= k < to - from => InstanceNode(nodes, prefix, classList, removeButton, from + k))
  }

  /** Instance j of the Template each pre-populated item j had, from its child nodes and attributes. */
  function ItemInstances(nodes: seq<seq<Node>>, attrs: seq<map<string, string>>, prefix: string, removeButton: Option<Node>): (r: seq<Node>)
    requires |nodes| == |attrs|
    requires removeButton.Some? ==> removeButton.value.Element?
    ensures |r| == |nodes|
  {
    seq(|nodes|, j requires 0 <= j < |nodes| => InstanceNode(nodes[j], prefix, ClassList(attrs[j]), removeButton, j))
  }

  class MultiFormInstance {
    const container: LiveElement
    const prefix: string
    const controlsContainer: LiveElement
    var addButton: LiveElement?
    var removeButton: Option<Node>
    var template: Template?
    /** Whether the constructor stopped at an exception; such an object never reaches its caller. */
    var aborted: bool
    /** The instances made from the pre-populated items, in order. */
    var items: seq<Node>
    /** The child nodes and attributes each item had when its own Template captured it. */
    ghost var itemNodes: seq<seq<Node>>
    ghost var itemAttrs: seq<map<string, string>>

    /**
     * The container holds the controls, then the item instances 0 .. k-1,
     * then main-template instances k .. currentIteration-1.
     */
    ghost predicate Valid()
      reads this, container, controlsContainer, template
    {
      && !aborted
      && container != controlsContainer
      && controlsContainer.attrs == map["id" := prefix + "-multiform_controls"]
      && template != null && template.Valid()
      && removeButton.Some? && removeButton.value.Element?
      && template.prefix == prefix && template.removeButton == removeButton
      && |itemNodes| == |itemAttrs|
      && items == ItemInstances(itemNodes, itemAttrs, prefix, removeButton)
      && |items| <= template.currentIteration
      && container.children == [controlsContainer.Value()] + items
           + MainInstances(template.nodes, prefix, template.classList, removeButton, |items|, template.currentIteration)
    }

    /**
     * `new multiFormInstance(container)`. pageAddButton is the element
     * `#<prefix>-add_button` of the page when it is not a child of the
     * container, and itemElements are the page's `.<prefix>-multiform_item`
     * elements, which lie outside the container.
     */
    constructor (container: LiveElement, pageAddButton: LiveElement?, itemElements: seq<LiveElement>)
      requires pageAddButton != container
      requires forall i :: 0 <= i < |itemElements| ==> itemElements[i] != container && itemElements[i] != pageAddButton
      requires forall i, j :: 0 <= i < j < |itemElements| ==> itemElements[i] != itemElements[j]
      modifies container, pageAddButton, itemElements
      ensures this.container == container && prefix == DataPrefix(old(container.attrs))
      ensures container.tag == old(container.tag) && container.attrs == old(container.attrs)
      ensures aborted <==> !RemoveSetupCompletes(AfterControls(old(container.children), prefix), prefix)
      ensures aborted ==> container.children == AfterRemoveAttempt(AfterControls(old(container.children), prefix))
      ensures aborted ==> forall i :: 0 <= i < |itemElements| ==> itemElements[i].children == old(itemElements[i].children)
      ensures !aborted ==> Valid()
      ensures !aborted ==> template.nodes == AfterRemoveAttempt(AfterControls(old(container.children), prefix))
      ensures !aborted ==> template.classList == ClassList(old(container.attrs))
      ensures !aborted ==> |items| == |itemElements| && template.currentIteration == |itemElements| + 1
      ensures !aborted ==> |itemNodes| == |itemElements|
      ensures !aborted ==> forall i :: 0 <= i < |itemElements| ==>
                itemNodes[i] == old(itemElements[i].children) && itemAttrs[i] == old(itemElements[i].attrs)
                && itemElements[i].children == []
    {
      this.container := container;
      this.controlsContainer := new LiveElement("DIV");
      this.prefix := DataPrefix(container.attrs);
      this.addButton := null;
      this.removeButton := None;
      this.template := null;
      this.items := [];
      this.itemNodes := [];
      this.itemAttrs := [];
      this.aborted := false;
      new;
      var thrown := Setup(pageAddButton);
      if thrown {
        aborted := true;
      } else {
        Populate(itemElements);
      }
    }

    /**
     * The constructor up to the items: setupControls, setupRemoveButton, the
     * main Template over what remains in the container, and the controls
     * appended to the emptied container.
     */
    method Setup(pageAddButton: LiveElement?) returns (thrown: bool)
      requires controlsContainer.Value() == Element("DIV", map[], [])
      requires controlsContainer != container && pageAddButton != container && pageAddButton != controlsContainer
      modifies this`addButton, this`removeButton, this`template, controlsContainer, container, pageAddButton
      ensures controlsContainer.attrs == map["id" := prefix + "-multiform_controls"]
      ensures removeButton.Some? && removeButton.value.Element?
      ensures container.tag == old(container.tag) && container.attrs == old(container.attrs)
      ensures thrown <==> !RemoveSetupCompletes(AfterControls(old(container.children), prefix), prefix)
      ensures thrown ==> template == old(template)
      ensures thrown ==> container.children == AfterRemoveAttempt(AfterControls(old(container.children), prefix))
      ensures !thrown ==> fresh(template) && template.Valid()
      ensures !thrown ==> template.nodes == AfterRemoveAttempt(AfterControls(old(container.children), prefix))
      ensures !thrown ==> template.classList == ClassList(old(container.attrs))
      ensures !thrown ==> template.prefix == prefix && template.removeButton == removeButton && template.currentIteration == 0
      ensures !thrown ==> container.children == [controlsContainer.Value()]
    {
      SetupControls(pageAddButton);
      thrown := SetupRemoveButton();
      if !thrown {
        // The main template takes every child still in the container.
        var t := new Template(container, prefix, removeButton, 0);
        template := t;
        container.AppendChild(controlsContainer.Value());
      }
    }

    /**
     * The constructor from the items on: each item becomes its own instance,
     * the main template's counter moves past them, and one main instance is
     * appended.
     */
    method Populate(itemElements: seq<LiveElement>)
      requires !aborted
      requires template != null && template.Valid()
      requires removeButton.Some? && removeButton.value.Element?
      requires template.prefix == prefix && template.removeButton == removeButton
      requires items == [] && itemNodes == [] && itemAttrs == []
      requires container != controlsContainer && controlsContainer.attrs == map["id" := prefix + "-multiform_controls"]
      requires container.children == [controlsContainer.Value()]
      requires forall i :: 0 <= i < |itemElements| ==> itemElements[i] != container && itemElements[i] != controlsContainer
      requires forall i, j :: 0 <= i < j < |itemElements| ==> itemElements[i] != itemElements[j]
      modifies this`items, this`itemNodes, this`itemAttrs, container, itemElements, template`currentIteration
      ensures Valid()
      ensures |items| == |itemElements| && template.currentIteration == |itemElements| + 1
      ensures |itemNodes| == |itemElements|
      ensures forall i :: 0 <= i < |itemElements| ==>
                itemNodes[i] == old(itemElements[i].children) && itemAttrs[i] == old(itemElements[i].attrs)
                && itemElements[i].children == []
      ensures container.children == [controlsContainer.Value()] + items
           + [InstanceNode(template.nodes, prefix, template.classList, removeButton, |itemElements|)]
      ensures container.tag == old(container.tag) && container.attrs == old(container.attrs)
    {
      AddItems(itemElements);
      // New iterations start after the pre-populated items.
      template.currentIteration := |itemElements|;
      assert container.children == [controlsContainer.Value()] + items
          + MainInstances(template.nodes, prefix, template.classList, removeButton, |items|, template.currentIteration);
      Add();
    }

    /** `setupControls()`. */
    method SetupControls(pageAddButton: LiveElement?)
      requires controlsContainer != container && pageAddButton != container && pageAddButton != controlsContainer
      requires controlsContainer.Value() == Element("DIV", map[], [])
      modifies this`addButton, controlsContainer, container, pageAddButton
      ensures container.children == AfterControls(old(container.children), prefix)
      ensures container.tag == old(container.tag) && container.attrs == old(container.attrs)
      ensures controlsContainer.Value()
           == ControlsNode(prefix, ControlsChildren(old(container.children), prefix, pageAddButton != null))
      ensures controlsContainer.attrs == map["id" := prefix + "-multiform_controls"]
      ensures addButton != null
      ensures AddTemplateIndex(old(container.children), prefix).None? && pageAddButton != null ==>
                addButton == pageAddButton && pageAddButton.Value() == StyledAddButton(old(pageAddButton.Value()), prefix)
      ensures AddTemplateIndex(old(container.children), prefix).Some? || pageAddButton == null ==>
                fresh(addButton) && (pageAddButton != null ==> unchanged(pageAddButton))
    {
      controlsContainer.SetAttribute("id", prefix + "-multiform_controls");
      var inside := AddTemplateIndex(container.children, prefix);
      // The controls hold the add button itself, so appending its final
      // value after styling gives the same controls as appending it first.
      if inside.Some? {
        var button := new LiveElement.FromNode(container.children[inside.value]);
        container.RemoveChild(inside.value);
        StyleAddButton(button, prefix);
        controlsContainer.AppendChild(button.Value());
        addButton := button;
      } else if pageAddButton != null {
        StyleAddButton(pageAddButton, prefix);
        addButton := pageAddButton;
      } else {
        var button := new LiveElement("DIV");
        button.AppendChild(CharacterData("#text", "Add"));
        assert button.Value() == DEFAULT_ADD_BUTTON;
        StyleAddButton(button, prefix);
        controlsContainer.AppendChild(button.Value());
        addButton := button;
      }
    }

    /** `setupRemoveButton()`. */
    method SetupRemoveButton() returns (thrown: bool)
      modifies this`removeButton, container
      ensures thrown <==> !RemoveSetupCompletes(old(container.children), prefix)
      ensures container.children == AfterRemoveAttempt(old(container.children))
      ensures container.tag == old(container.tag) && container.attrs == old(container.attrs)
      ensures removeButton.Some? && removeButton.value.Element?
      ensures !SupportedRemoveLayout(old(container.children)) ==> removeButton == Some(DEFAULT_X_BUTTON)
      ensures SupportedRemoveLayout(old(container.children)) ==>
                removeButton == Some(if thrown then RemoveButtonTemplate(old(container.children))
                                     else MarkedRemoveButton(RemoveButtonTemplate(old(container.children)), prefix))
    {
      ghost var base := if SupportedRemoveLayout(container.children) then RemoveButtonTemplate(container.children) else DEFAULT_X_BUTTON;
      var containerTemplate := FirstChild(container.children, ByClass("remove-container"));
      var parent := if containerTemplate.Some? then container.children[containerTemplate.value].children else container.children;
      var buttonTemplate := FirstChild(parent, ByClass("remove-button"));
      var button: LiveElement;
      if buttonTemplate.Some? && containerTemplate.Some? {
        var c := container.children[containerTemplate.value];
        button := new LiveElement.FromNode(parent[buttonTemplate.value]);
        assert button.Value() == base;
        container.UpdateChild(containerTemplate.value, Element(c.tag, c.attrs, RemoveAt(parent, buttonTemplate.value)));
      } else if containerTemplate.Some? {
        // The default X button is made, then an undeclared variable is read:
        // a ReferenceError.
        removeButton := Some(DEFAULT_X_BUTTON);
        return true;
      } else if buttonTemplate.Some? {
        button := new LiveElement.FromNode(parent[buttonTemplate.value]);
        assert button.Value() == base;
        container.RemoveChild(buttonTemplate.value);
      } else {
        button := new LiveElement("DIV");
        button.AppendChild(CharacterData("#text", "X"));
        assert button.Value() == base;
      }
      if !IsToken(prefix + "-multiform_remove") {
        // classList.add refuses a class with whitespace in it.
        removeButton := Some(button.Value());
        return true;
      }
      button.AddClass(prefix + "-multiform_remove");
      removeButton := Some(button.Value());
      thrown := false;
    }

    /**
     * `items.each(this.addItem)`: item i becomes instance i of a Template of
     * its own, which empties it, and the instance is appended.
     */
    method AddItems(itemElements: seq<LiveElement>)
      requires removeButton.Some? && removeButton.value.Element?
      requires items == [] && itemNodes == [] && itemAttrs == []
      requires forall i :: 0 <= i < |itemElements| ==> itemElements[i] != container
      requires forall i, j :: 0 <= i < j < |itemElements| ==> itemElements[i] != itemElements[j]
      modifies this`items, this`itemNodes, this`itemAttrs, container, itemElements
      ensures |itemNodes| == |itemElements| && |itemAttrs| == |itemElements|
      ensures forall i :: 0 <= i < |itemElements| ==>
                itemNodes[i] == old(itemElements[i].children) && itemAttrs[i] == old(itemElements[i].attrs)
                && itemElements[i].children == [] && itemElements[i].attrs == old(itemElements[i].attrs)
      ensures items == ItemInstances(itemNodes, itemAttrs, prefix, removeButton)
      ensures container.children == old(container.children) + items
      ensures container.tag == old(container.tag) && container.attrs == old(container.attrs)
    {
      for i := 0 to |itemElements|
        invariant |itemNodes| == i && |itemAttrs| == i
        invariant forall j :: 0 <= j < i ==>
                    itemNodes[j] == old(itemElements[j].children) && itemAttrs[j] == old(itemElements[j].attrs)
                    && itemElements[j].children == [] && itemElements[j].attrs == old(itemElements[j].attrs)
        invariant forall j :: i <= j < |itemElements| ==>
                    itemElements[j].children == old(itemElements[j].children) && itemElements[j].attrs == old(itemElements[j].attrs)
        invariant items == ItemInstances(itemNodes, itemAttrs, prefix, removeButton)
        invariant container.children == old(container.children) + items
        invariant container.tag == old(container.tag) && container.attrs == old(container.attrs)
      {
        ghost var nodes := itemElements[i].children;
        ghost var attrs := itemElements[i].attrs;
        var instance := InstantiateItem(itemElements[i], i, itemNodes, itemAttrs);
        items := items + [instance];
        itemNodes := itemNodes + [nodes];
        itemAttrs := itemAttrs + [attrs];
        container.AppendChild(instance);
      }
    }

    /**
     * `new Template({baseObject: item, prefix, removeButton, iteration: i}).instance()`
     * for the item that follows those whose nodes and attributes are given:
     * its instance is the next one of ItemInstances.
     */
    method InstantiateItem(item: LiveElement, i: nat, ghost nodes: seq<seq<Node>>, ghost attrs: seq<map<string, string>>)
      returns (instance: Node)
      requires removeButton.Some? && removeButton.value.Element?
      requires |nodes| == i && |attrs| == i
      modifies item
      ensures ItemInstances(nodes + [old(item.children)], attrs + [old(item.attrs)], prefix, removeButton)
           == ItemInstances(nodes, attrs, prefix, removeButton) + [instance]
      ensures item.children == [] && item.tag == old(item.tag) && item.attrs == old(item.attrs)
    {
      ItemInstancesSnoc(nodes, attrs, item.children, item.attrs, prefix, removeButton);
      var itemTemplate := new Template(item, prefix, removeButton, i);
      instance := itemTemplate.Instance();
    }

    /** A click on the add button: the next instance of the main template is appended. */
    method Add()
      requires Valid()
      modifies container, template`currentIteration
      ensures Valid()
      ensures template.currentIteration == old(template.currentIteration) + 1
      ensures container.children == old(container.children)
           + [InstanceNode(template.nodes, prefix, template.classList, removeButton, old(template.currentIteration))]
      ensures container.tag == old(container.tag) && container.attrs == old(container.attrs)
    {
      var instance := template.Instance();
      container.AppendChild(instance);
      MainInstancesSnoc(template.nodes, prefix, template.classList, removeButton, |items|, old(template.currentIteration));
    }
  }

  /** setupControls' styling of the add button, in the order the calls are made. */
  method StyleAddButton(button: LiveElement, prefix: string)
    modifies button
    ensures button.attrs == AddButtonAttributes(old(button.attrs), prefix)
    ensures button.tag == old(button.tag) && button.children == old(button.children)
  {
    LibraryTokens();
    AddBootstrapClasses(button, "btn-success");
    button.SetAttribute("id", prefix + "-multiform_add");
    // An existing type wins over the default.
    if Reflected(button.attrs, "type") == "" {
      button.SetAttribute("type", "button");
    }
  }

  /** `multiForm.forms`: the controllers by prefix. */
  class Registry {
    var forms: map<string, MultiFormInstance>

    constructor ()
      ensures forms == map[]
    {
      forms := map[];
    }

    /**
     * One element of `$.fn.multiFormTemplate`'s loop: the controller built
     * over container is registered under its data-prefix, replacing any
     * earlier one with that prefix; the other entries stay.
     */
    method Register(container: LiveElement, pageAddButton: LiveElement?, itemElements: seq<LiveElement>)
      returns (form: Option<MultiFormInstance>)
      requires pageAddButton != container
      requires forall i :: 0 <= i < |itemElements| ==> itemElements[i] != container && itemElements[i] != pageAddButton
      requires forall i, j :: 0 <= i < j < |itemElements| ==> itemElements[i] != itemElements[j]
      modifies this, container, pageAddButton, itemElements
      ensures form.Some? <==> RemoveSetupCompletes(AfterControls(old(container.children), DataPrefix(old(container.attrs))),
                                                   DataPrefix(old(container.attrs)))
      ensures form.Some? ==> fresh(form.value) && form.value.Valid() && form.value.container == container
      ensures form.Some? ==> form.value.prefix == DataPrefix(old(container.attrs))
      ensures form.Some? ==> forms == old(forms)[form.value.prefix := form.value]
      ensures form.None? ==> forms == old(forms)
      ensures form.None? ==>
                container.children == AfterRemoveAttempt(AfterControls(old(container.children), DataPrefix(old(container.attrs))))
    {
      var templatePrefix := DataPrefix(container.attrs);
      var built := new MultiFormInstance(container, pageAddButton, itemElements);
      if built.aborted {
        form := None;
      } else {
        forms := forms[templatePrefix := built];
        form := Some(built);
      }
    }
  }

  // Properties.

  /** One more main instance is the old ones followed by instance `to`. */
  lemma MainInstancesSnoc(nodes: seq<Node>, prefix: string, classList: seq<string>, removeButton: Option<Node>,
                          from: nat, to: nat)
    requires from <= to
    requires removeButton.Some? ==> removeButton.value.Element?
    ensures MainInstances(nodes, prefix, classList, removeButton, from, to + 1)
         == MainInstances(nodes, prefix, classList, removeButton, from, to) + [InstanceNode(nodes, prefix, classList, removeButton, to)]
  {
    var longer := MainInstances(nodes, prefix, classList, removeButton, from, to + 1);
    var shorter := MainInstances(nodes, prefix, classList, removeButton, from, to);
    assert forall k :: 0 <= k < |shorter| ==> longer[k] == shorter[k];
  }

  /** One more item is the old item instances followed by its own. */
  lemma ItemInstancesSnoc(nodes: seq<seq<Node>>, attrs: seq<map<string, string>>, n: seq<Node>, a: map<string, string>,
                          prefix: string, removeButton: Option<Node>)
    requires |nodes| == |attrs|
    requires removeButton.Some? ==> removeButton.value.Element?
    ensures ItemInstances(nodes + [n], attrs + [a], prefix, removeButton)
         == ItemInstances(nodes, attrs, prefix, removeButton) + [InstanceNode(n, prefix, ClassList(a), removeButton, |nodes|)]
  {
    var longer := ItemInstances(nodes + [n], attrs + [a], prefix, removeButton);
    var shorter := ItemInstances(nodes, attrs, prefix, removeButton);
    assert forall k :: 0 <= k < |shorter| ==> longer[k] == shorter[k];
  }

  /**
   * n is instance k of prefix: its id is `<prefix>_<k>-item_container` and
   * its last child, the remove button, names that id in data-itemcontainer.
   */
  ghost predicate PointsAtItself(n: Node, prefix: string, k: nat) {
    && n.Element? && Id(n) == ItemContainerId(InstancePrefix(prefix, k))
    && n.children != [] && n.children[|n.children| - 1].Element?
    && Attribute(n.children[|n.children| - 1].attrs, "data-itemcontainer") == Some(Id(n))
  }

  lemma InstancePointsAtItself(nodes: seq<Node>, prefix: string, classList: seq<string>, removeButton: Option<Node>, k: nat)
    requires IsTokenSet(classList)
    requires removeButton.Some? ==> removeButton.value.Element?
    ensures PointsAtItself(InstanceNode(nodes, prefix, classList, removeButton, k), prefix, k)
  {
    var r := InstanceNode(nodes, prefix, classList, removeButton, k);
    InstanceShape(nodes, prefix, classList, removeButton, k);
    RemoveButtonFacts(RemoveButtonBase(removeButton), Id(r));
  }

  /** Item instance k is instance k of prefix. */
  lemma ItemInstancesPointAtThemselves(nodes: seq<seq<Node>>, attrs: seq<map<string, string>>, prefix: string,
                                       removeButton: Option<Node>)
    requires |nodes| == |attrs|
    requires removeButton.Some? ==> removeButton.value.Element?
    ensures var r := ItemInstances(nodes, attrs, prefix, removeButton);
      forall k :: 0 <= k < |r| ==> PointsAtItself(r[k], prefix, k)
  {
    var r := ItemInstances(nodes, attrs, prefix, removeButton);
    forall k | 0 <= k < |r|
      ensures PointsAtItself(r[k], prefix, k)
    {
      ClassListIsTokenSet(attrs[k]);
      InstancePointsAtItself(nodes[k], prefix, ClassList(attrs[k]), removeButton, k);
    }
  }

  /** Main instance from + k is instance from + k of prefix. */
  lemma MainInstancesPointAtThemselves(nodes: seq<Node>, prefix: string, classList: seq<string>, removeButton: Option<Node>,
                                       from: nat, to: nat)
    requires from <= to
    requires IsTokenSet(classList)
    requires removeButton.Some? ==> removeButton.value.Element?
    ensures var r := MainInstances(nodes, prefix, classList, removeButton, from, to);
      forall k :: 0 <= k < |r| ==> PointsAtItself(r[k], prefix, from + k)
  {
    var r := MainInstances(nodes, prefix, classList, removeButton, from, to);
    forall k | 0 <= k < |r|
      ensures PointsAtItself(r[k], prefix, from + k)
    {
      InstancePointsAtItself(nodes, prefix, classList, removeButton, from + k);
    }
  }

  /**
   * A controller's container holds the controls and then one instance per
   * iteration so far: child j is instance j-1, and its remove button points
   * back at it.
   */
  lemma FormLayout(f: MultiFormInstance)
    requires f.Valid()
    ensures |f.container.children| == f.template.currentIteration + 1
    ensures Id(f.container.children[0]) == f.prefix + "-multiform_controls"
    ensures forall j :: 1 <= j < |f.container.children| ==> PointsAtItself(f.container.children[j], f.prefix, j - 1)
  {
    var items := f.items;
    var main := MainInstances(f.template.nodes, f.prefix, f.template.classList, f.removeButton, |items|, f.template.currentIteration);
    ItemInstancesPointAtThemselves(f.itemNodes, f.itemAttrs, f.prefix, f.removeButton);
    MainInstancesPointAtThemselves(f.template.nodes, f.prefix, f.template.classList, f.removeButton, |items|, f.template.currentIteration);
    LayoutPointsAtThemselves(f.container.children, f.controlsContainer.Value(), items, main, f.prefix);
  }

  /** Controls followed by instances 0 .. |items|-1 and then |items| .. : child j is instance j-1. */
  lemma LayoutPointsAtThemselves(cs: seq<Node>, controls: Node, items: seq<Node>, main: seq<Node>, prefix: string)
    requires cs == [controls] + items + main
    requires forall k :: 0 <= k < |items| ==> PointsAtItself(items[k], prefix, k)
    requires forall k :: 0 <= k < |main| ==> PointsAtItself(main[k], prefix, |items| + k)
    ensures forall j :: 1 <= j < |cs| ==> PointsAtItself(cs[j], prefix, j - 1)
  {
    forall j | 1 <= j < |cs|
      ensures PointsAtItself(cs[j], prefix, j - 1)
    {
      if j - 1 < |items| {
        assert cs[j] == items[j - 1];
      } else {
        assert cs[j] == main[j - 1 - |items|];
      }
    }
  }

  /** The controls' id never equals an instance's: one has "-" after the prefix, the other "_". */
  lemma ControlsIdIsNotAnInstanceId(prefix: string, k: nat)
    ensures prefix + "-multiform_controls" != ItemContainerId(InstancePrefix(prefix, k))
  {
    assert (prefix + "-multiform_controls")[|prefix|] == '-';
    assert ItemContainerId(InstancePrefix(prefix, k))[|prefix|] == '_';
  }

  /** No two children of a controller's container share an id. */
  lemma FormIdsDistinct(f: MultiFormInstance)
    requires f.Valid()
    ensures forall a, b :: 0 <= a < b < |f.container.children| ==> Id(f.container.children[a]) != Id(f.container.children[b])
  {
    FormLayout(f);
    LayoutIdsDistinct(f.container.children, f.prefix);
  }

  /** In the controls-then-instances layout every id is different. */
  lemma LayoutIdsDistinct(cs: seq<Node>, prefix: string)
    requires cs != [] && Id(cs[0]) == prefix + "-multiform_controls"
    requires forall j :: 1 <= j < |cs| ==> PointsAtItself(cs[j], prefix, j - 1)
    ensures forall a, b :: 0 <= a < b < |cs| ==> Id(cs[a]) != Id(cs[b])
  {
    forall a, b | 0 <= a < b < |cs|
      ensures Id(cs[a]) != Id(cs[b])
    {
      assert PointsAtItself(cs[b], prefix, b - 1);
      if a == 0 {
        ControlsIdIsNotAnInstanceId(prefix, b - 1);
      } else {
        assert PointsAtItself(cs[a], prefix, a - 1);
        ItemContainerIdsDistinct(prefix, a - 1, b - 1);
      }
    }
  }

  /**
   * The add button keeps its tag, children and other attributes, gets id
   * `<prefix>-multiform_add`, type "button" unless it has a type, class
   * "btn", and "btn-success" unless it had it or its first class starts
   * with "btn-".
   */
  lemma AddButtonFacts(n: Node, prefix: string)
    requires n.Element?
    ensures var b := StyledAddButton(n, prefix);
      && b.Element? && b.tag == n.tag && b.children == n.children
      && Id(b) == prefix + "-multiform_add"
      && Reflected(b.attrs, "type") == (if Reflected(n.attrs, "type") == "" then "button" else n.attrs["type"])
      && ClassList(b.attrs) == BootstrapClasses(ClassList(n.attrs), "btn-success")
      && "btn" in ClassList(b.attrs)
      && ("btn-success" in ClassList(b.attrs) <==>
            "btn-success" in ClassList(n.attrs) || ClassList(n.attrs) == [] || !StartsWith(ClassList(n.attrs)[0], "btn-"))
      && forall k :: k != "type" && k != "class" && k != "id" ==> Attribute(b.attrs, k) == Attribute(n.attrs, k)
  {
    var cl := ClassList(n.attrs);
    var styled := BootstrapClasses(cl, "btn-success");
    LibraryTokens();
    ClassListIsTokenSet(n.attrs);
    BootstrapClassesFacts(cl, "btn-success");
    ClassListWithClassList(n.attrs, styled);
    var classed := WithClassList(n.attrs, styled);
    ClassListOtherUpdate(classed, "id", prefix + "-multiform_add");
    ClassListOtherUpdate(classed["id" := prefix + "-multiform_add"], "type", "button");
  }

  /**
   * Every remove button of an instance carries both "multiform-remove" and
   * the controller's own `<prefix>-multiform_remove` class.
   */
  lemma RemoveButtonClasses(cs: seq<Node>, prefix: string, itemContainer: string)
    requires SupportedRemoveLayout(cs)
    requires IsToken(prefix + "-multiform_remove")
    ensures var b := RemoveButtonNode(MarkedRemoveButton(RemoveButtonTemplate(cs), prefix), itemContainer);
      && "multiform-remove" in ClassList(b.attrs) && prefix + "-multiform_remove" in ClassList(b.attrs)
  {
    var t := RemoveButtonTemplate(cs);
    var marked := MarkedRemoveButton(t, prefix);
    ClassListWithClass(t.attrs, prefix + "-multiform_remove");
    var cl := ClassList(marked.attrs);
    ClassListIsTokenSet(marked.attrs);
    RemoveButtonFacts(marked, itemContainer);
    ButtonClassListFacts(cl);
    var r := ButtonClassList(cl);
    assert forall t :: t in cl ==> t in r[..|cl|];
  }
}
