/**
 * The controller of multiform.js: MultiformContainer, which puts the add
 * button's controls into the form's container and removes an instance when
 * its remove button is clicked, and the assembly done by `$.fn.multiForm`,
 * which turns the pre-populated items into the first instances, starts the
 * main template after them and appends one instance per click on "Add".
 */
module MultiFormV2 {
  import opened Wrappers
  import opened ClassTokens
  import opened Dom
  import opened Identifiers
  import opened TemplateV2

  /** The add button: a DIV of type button with class "btn btn-success" and id multiform-add; its innerHTML is 'Add'. */
  const ADD_BUTTON: Node :=
    Element("DIV", map["type" := "button", "class" := "btn btn-success", "id" := "multiform-add"],
            [CharacterData("#text", "Add")])

  /** The controls: a DIV with id multiform-controls holding the add button. */
  const CONTROLS: Node := Element("DIV", map["id" := "multiform-controls"], [ADD_BUTTON])

  /** `$("#" + id).remove()` within the container: its first child with that id goes, if there is one. */
  function RemoveById(cs: seq<Node>, id: string): seq<Node> {
    match FirstChild(cs, ById(id))
    case None => cs
    case Some(i) => RemoveAt(cs, i)
  }

  /** The instances made from the pre-populated items whose nodes and attributes are given: item j is instance j. */
  function ItemInstances(nodes: seq<seq<Node>>, attrs: seq<map<string, string>>, prefix: string): (r: seq<Node>)
    requires |nodes| == |attrs|
    ensures |r| == |nodes|
  {
    seq(|nodes|, j requires 0 <= j < |nodes| => InstanceNode(nodes[j], prefix, ClassList(attrs[j]), j))
  }

  // What each child of the container is.

  /** A child of the container is the controls or the instance of some iteration. */
  datatype Slot = Controls | Instance(iteration: nat)

  /** Where a slot comes in the container: the controls first, then instances by iteration. */
  function Rank(s: Slot): int {
    match s
    case Controls => -1
    case Instance(k) => k
  }

  /** The id of the element in a slot. */
  function SlotId(prefix: string, s: Slot): string {
    match s
    case Controls => "multiform-controls"
    case Instance(k) => ItemContainerId(InstancePrefixV2(prefix, k))
  }

  /** The last child of n carries a data-itemcontainer attribute, as a remove button does. */
  predicate HasRemoveButton(n: Node) {
    && n.Element? && n.children != [] && n.children[|n.children| - 1].Element?
    && "data-itemcontainer" in n.children[|n.children| - 1].attrs
  }

  /** The container the remove button of n names. */
  function RemoveTarget(n: Node): string
    requires HasRemoveButton(n)
  {
    n.children[|n.children| - 1].attrs["data-itemcontainer"]
  }

  /** n is what the slot holds: the controls, or an instance whose remove button names it. */
  ghost predicate Occupies(n: Node, prefix: string, s: Slot) {
    match s
    case Controls => n == CONTROLS
    case Instance(k) =>
      && n.Element? && Id(n) == SlotId(prefix, s)
      && HasRemoveButton(n) && RemoveTarget(n) == Id(n)
  }

  /**
   * The container's children fill slots in order of rank, all below bound:
   * the controls, if still there, come first, then instances of increasing
   * iterations, each of whose remove buttons names the instance itself.
   */
  ghost predicate Layout(cs: seq<Node>, slots: seq<Slot>, prefix: string, bound: nat) {
    && |cs| == |slots|
    && (forall a, b :: 0 <= a < b < |slots| ==> Rank(slots[a]) < Rank(slots[b]))
    && (forall j :: 0 <= j < |slots| ==> Rank(slots[j]) < bound)
    && (forall j :: 0 <= j < |cs| ==> Occupies(cs[j], prefix, slots[j]))
  }

  class MultiformContainer {
    const container: LiveElement
    const controlsContainer: LiveElement
    const addButton: LiveElement

    /** `new MultiformContainer(containerObject)`: builds the controls and appends them to the container. */
    constructor (containerObject: LiveElement)
      modifies containerObject
      ensures container == containerObject
      ensures fresh(controlsContainer) && fresh(addButton)
      ensures addButton.Value() == ADD_BUTTON && controlsContainer.Value() == CONTROLS
      ensures container.children == old(containerObject.children) + [CONTROLS]
      ensures container.tag == old(containerObject.tag) && container.attrs == old(containerObject.attrs)
    {
      container := containerObject;
      controlsContainer := new LiveElement("DIV");
      addButton := new LiveElement("DIV");
      new;
      addButton.AppendChild(CharacterData("#text", "Add"));
      addButton.SetAttribute("type", "button");
      addButton.SetAttribute("class", "btn btn-success");
      addButton.SetAttribute("id", "multiform-add");
      controlsContainer.SetAttribute("id", "multiform-controls");
      controlsContainer.AppendChild(addButton.Value());
      container.AppendChild(controlsContainer.Value());
    }

    /** `appendChild(child)`: the child goes last; rebinding the click handlers is not modelled. */
    method AppendChild(child: Node)
      modifies container
      ensures container.children == old(container.children) + [child]
      ensures container.tag == old(container.tag) && container.attrs == old(container.attrs)
    {
      container.AppendChild(child);
    }

    /** The remove handler, `$("#" + itemContainer).remove()`, on the container's children. */
    method Remove(itemContainer: string)
      modifies container
      ensures container.children == RemoveById(old(container.children), itemContainer)
      ensures container.tag == old(container.tag) && container.attrs == old(container.attrs)
    {
      var target := FirstChild(container.children, ById(itemContainer));
      if target.Some? {
        container.RemoveChild(target.value);
      }
    }
  }

  /**
   * The state `$.fn.multiForm(prefix, func)` leaves behind: the main
   * template, the container, and whether an after-add function was given;
   * postAddCalls counts the calls made to it.
   */
  class MultiForm {
    const template: Template
    const container: MultiformContainer
    const postAddFunc: bool
    var postAddCalls: nat
    /** What each child of the container is. */
    ghost var slots: seq<Slot>
    /** The child nodes and attributes the pre-populated items had. */
    ghost var itemNodes: seq<seq<Node>>
    ghost var itemAttrs: seq<map<string, string>>

    ghost predicate Valid()
      reads this, container, container.container, template
    {
      && template.Valid()
      && Layout(container.container.children, slots, template.prefix, template.currentIteration)
    }

    /** The closure's state once the main template and the container exist. */
    constructor (template: Template, container: MultiformContainer, postAddFunc: bool)
      ensures this.template == template && this.container == container && this.postAddFunc == postAddFunc
      ensures postAddCalls == 0 && slots == [Controls] && itemNodes == [] && itemAttrs == []
    {
      this.template := template;
      this.container := container;
      this.postAddFunc := postAddFunc;
      postAddCalls := 0;
      slots := [Controls];
      itemNodes := [];
      itemAttrs := [];
    }

    /** The item loop, then the first instance of the main template. */
    method Populate(itemElements: seq<LiveElement>)
      requires template.Valid() && template.currentIteration == 0
      requires container.container.children == [CONTROLS]
      requires itemNodes == [] && itemAttrs == []
      requires forall i :: 0 <= i < |itemElements| ==> itemElements[i] != container.container
      requires forall i, j :: 0 <= i < j < |itemElements| ==> itemElements[i] != itemElements[j]
      modifies this`slots, this`itemNodes, this`itemAttrs, container.container, itemElements, template`currentIteration
      ensures Valid()
      ensures template.currentIteration == |itemElements| + 1
      ensures |itemNodes| == |itemElements| && |itemAttrs| == |itemElements|
      ensures forall i :: 0 <= i < |itemElements| ==>
                itemNodes[i] == old(itemElements[i].children) && itemAttrs[i] == old(itemElements[i].attrs)
                && itemElements[i].children == [] && itemElements[i].attrs == old(itemElements[i].attrs)
      ensures container.container.children == [CONTROLS] + ItemInstances(itemNodes, itemAttrs, template.prefix)
                + [InstanceNode(template.nodes, template.prefix, template.classList, |itemElements|)]
      ensures container.container.tag == old(container.container.tag)
      ensures container.container.attrs == old(container.container.attrs)
    {
      AddItems(itemElements);
      ItemsLayout(itemNodes, itemAttrs, template.prefix);
      slots := [Controls] + ItemSlots(|itemElements|);
      // New items are numbered after the pre-populated ones.
      template.currentIteration := |itemElements|;
      AppendMainInstance();
    }

    /** Item i gets its own template, numbered i, whose instance is appended. */
    method AddItems(itemElements: seq<LiveElement>)
      requires itemNodes == [] && itemAttrs == []
      requires forall i :: 0 <= i < |itemElements| ==> itemElements[i] != container.container
      requires forall i, j :: 0 <= i < j < |itemElements| ==> itemElements[i] != itemElements[j]
      modifies this`itemNodes, this`itemAttrs, container.container, itemElements
      ensures |itemNodes| == |itemElements| && |itemAttrs| == |itemElements|
      ensures forall i :: 0 <= i < |itemElements| ==>
                itemNodes[i] == old(itemElements[i].children) && itemAttrs[i] == old(itemElements[i].attrs)
                && itemElements[i].children == [] && itemElements[i].attrs == old(itemElements[i].attrs)
      ensures container.container.children == old(container.container.children) + ItemInstances(itemNodes, itemAttrs, template.prefix)
      ensures container.container.tag == old(container.container.tag)
      ensures container.container.attrs == old(container.container.attrs)
    {
      var prefix := template.prefix;
      for i := 0 to |itemElements|
        invariant |itemNodes| == i && |itemAttrs| == i
        invariant forall j :: 0 <= j < i ==>
                    itemNodes[j] == old(itemElements[j].children) && itemAttrs[j] == old(itemElements[j].attrs)
                    && itemElements[j].children == [] && itemElements[j].attrs == old(itemElements[j].attrs)
        invariant forall j :: i <= j < |itemElements| ==>
                    itemElements[j].children == old(itemElements[j].children) && itemElements[j].attrs == old(itemElements[j].attrs)
        invariant container.container.children == old(container.container.children) + ItemInstances(itemNodes, itemAttrs, prefix)
        invariant container.container.tag == old(container.container.tag)
        invariant container.container.attrs == old(container.container.attrs)
      {
        ghost var nodes := itemElements[i].children;
        ghost var attrs := itemElements[i].attrs;
        var instance := InstantiateItem(itemElements[i], prefix, i, itemNodes, itemAttrs);
        container.AppendChild(instance);
        itemNodes := itemNodes + [nodes];
        itemAttrs := itemAttrs + [attrs];
      }
    }

    /**
     * `new Template(item, prefix)` with its counter set to i, then
     * `createInstance()`, for the item that follows those whose nodes and
     * attributes are given: its instance is the next one of ItemInstances.
     */
    static method InstantiateItem(item: LiveElement, prefix: string, i: nat,
                                  ghost nodes: seq<seq<Node>>, ghost attrs: seq<map<string, string>>)
      returns (instance: Node)
      requires |nodes| == i && |attrs| == i
      modifies item
      ensures ItemInstances(nodes + [old(item.children)], attrs + [old(item.attrs)], prefix)
           == ItemInstances(nodes, attrs, prefix) + [instance]
      ensures item.children == [] && item.tag == old(item.tag) && item.attrs == old(item.attrs)
    {
      ItemInstancesSnoc(nodes, attrs, item.children, item.attrs, prefix);
      var itemTemplate := new Template(item, prefix);
      itemTemplate.currentIteration := i;
      instance := itemTemplate.CreateInstance();
    }

    /** The main template's instance appended once the items are in. */
    method AppendMainInstance()
      requires template.Valid()
      requires Layout(container.container.children, slots, template.prefix, template.currentIteration)
      modifies this`slots, container.container, template`currentIteration
      ensures Valid()
      ensures template.currentIteration == old(template.currentIteration) + 1
      ensures container.container.children == old(container.container.children)
           + [InstanceNode(template.nodes, template.prefix, template.classList, old(template.currentIteration))]
      ensures container.container.tag == old(container.container.tag)
      ensures container.container.attrs == old(container.container.attrs)
    {
      ghost var before := container.container.children;
      ghost var n := template.currentIteration;
      var instance := template.CreateInstance();
      InstanceOccupiesItsSlot(template.nodes, template.prefix, template.classList, n);
      container.AppendChild(instance);
      LayoutSnoc(before, slots, template.prefix, n, instance, n);
      slots := slots + [Instance(n)];
    }

    /**
     * A click on the add button: the main template's next instance is
     * appended, then the after-add function, if one was given, is called.
     */
    method Add()
      requires Valid()
      modifies this`slots, this`postAddCalls, container.container, template`currentIteration
      ensures Valid()
      ensures template.currentIteration == old(template.currentIteration) + 1
      ensures container.container.children == old(container.container.children)
           + [InstanceNode(template.nodes, template.prefix, template.classList, old(template.currentIteration))]
      ensures postAddCalls == old(postAddCalls) + (if postAddFunc then 1 else 0)
      ensures container.container.tag == old(container.container.tag)
      ensures container.container.attrs == old(container.container.attrs)
    {
      AppendMainInstance();
      if postAddFunc {
        postAddCalls := postAddCalls + 1;
      }
    }

    /**
     * A click on the remove button of child j: the element its
     * data-itemcontainer names, which is child j itself, is removed and
     * every other child stays, in order.
     */
    method ClickRemove(j: nat)
      requires Valid()
      requires j < |container.container.children| && HasRemoveButton(container.container.children[j])
      modifies this`slots, container.container
      ensures Valid()
      ensures container.container.children == RemoveAt(old(container.container.children), j)
      ensures template.currentIteration == old(template.currentIteration)
      ensures container.container.tag == old(container.container.tag)
      ensures container.container.attrs == old(container.container.attrs)
    {
      ghost var cs := container.container.children;
      var itemContainer := RemoveTarget(container.container.children[j]);
      RemoveTargetIsItself(cs, slots, template.prefix, template.currentIteration, j);
      container.Remove(itemContainer);
      LayoutRemove(cs, slots, template.prefix, template.currentIteration, j);
      slots := slots[..j] + slots[j + 1..];
    }
  }

  /**
   * `$(base, items...).multiForm(prefix, func)`: base becomes the main
   * template and the container, item i becomes instance i, and the main
   * template's first instance, numbered after the items, is appended.
   */
  method Build(base: LiveElement, itemElements: seq<LiveElement>, prefix: string, postAddFunc: bool) returns (form: MultiForm)
    requires forall i :: 0 <= i < |itemElements| ==> itemElements[i] != base
    requires forall i, j :: 0 <= i < j < |itemElements| ==> itemElements[i] != itemElements[j]
    modifies base, itemElements
    ensures fresh(form) && form.Valid()
    ensures form.container.container == base && form.template.prefix == prefix
    ensures form.template.nodes == old(base.children) && form.template.classList == ClassList(old(base.attrs))
    ensures base.tag == old(base.tag) && base.attrs == old(base.attrs)["class" := ""]["id" := "multiform-container"]
    ensures form.template.currentIteration == |itemElements| + 1
    ensures form.postAddFunc == postAddFunc && form.postAddCalls == 0
    ensures |form.itemNodes| == |itemElements| && |form.itemAttrs| == |itemElements|
    ensures forall i :: 0 <= i < |itemElements| ==>
              form.itemNodes[i] == old(itemElements[i].children) && form.itemAttrs[i] == old(itemElements[i].attrs)
              && itemElements[i].children == [] && itemElements[i].attrs == old(itemElements[i].attrs)
    ensures base.children == [CONTROLS] + ItemInstances(form.itemNodes, form.itemAttrs, prefix)
                           + [InstanceNode(form.template.nodes, prefix, form.template.classList, |itemElements|)]
  {
    var template := new Template(base, prefix);
    var container := new MultiformContainer(base);
    // Assigning [] to classList forwards String([]), the empty string, to the class attribute.
    base.SetAttribute("class", "");
    base.SetAttribute("id", "multiform-container");
    form := new MultiForm(template, container, postAddFunc);
    form.Populate(itemElements);
  }

  // Lemmas.

  /** The slots of the instances of iterations 0 .. n-1. */
  function ItemSlots(n: nat): (r: seq<Slot>)
    ensures |r| == n && forall j :: 0 <= j < n ==> r[j] == Instance(j)
  {
    seq(n, j requires 0 <= j => Instance(j))
  }

  /** The controls followed by the item instances are laid out, item j in slot j. */
  lemma ItemsLayout(nodes: seq<seq<Node>>, attrs: seq<map<string, string>>, prefix: string)
    requires |nodes| == |attrs|
    ensures Layout([CONTROLS] + ItemInstances(nodes, attrs, prefix), [Controls] + ItemSlots(|nodes|), prefix, |nodes|)
  {
    var cs := [CONTROLS] + ItemInstances(nodes, attrs, prefix);
    var slots := [Controls] + ItemSlots(|nodes|);
    forall j | 1 <= j < |cs|
      ensures Occupies(cs[j], prefix, slots[j])
    {
      ClassListIsTokenSet(attrs[j - 1]);
      InstanceOccupiesItsSlot(nodes[j - 1], prefix, ClassList(attrs[j - 1]), j - 1);
      assert cs[j] == InstanceNode(nodes[j - 1], prefix, ClassList(attrs[j - 1]), j - 1);
    }
    assert Occupies(cs[0], prefix, slots[0]);
    assert forall j :: 0 <= j < |slots| ==> Rank(slots[j]) == j - 1;
  }

  lemma ItemInstancesSnoc(nodes: seq<seq<Node>>, attrs: seq<map<string, string>>, n: seq<Node>, a: map<string, string>,
                          prefix: string)
    requires |nodes| == |attrs|
    ensures ItemInstances(nodes + [n], attrs + [a], prefix)
         == ItemInstances(nodes, attrs, prefix) + [InstanceNode(n, prefix, ClassList(a), |nodes|)]
  {
    var longer := ItemInstances(nodes + [n], attrs + [a], prefix);
    var shorter := ItemInstances(nodes, attrs, prefix);
    assert forall k :: 0 <= k < |shorter| ==> longer[k] == shorter[k];
  }

  /** Instance k of a template is in slot k: its remove button names its own id. */
  lemma InstanceOccupiesItsSlot(nodes: seq<Node>, prefix: string, classList: seq<string>, k: nat)
    requires IsTokenSet(classList)
    ensures Occupies(InstanceNode(nodes, prefix, classList, k), prefix, Instance(k))
  {
    var r := InstanceNode(nodes, prefix, classList, k);
    InstanceShape(nodes, prefix, classList, k);
    RemoveButtonFacts(Id(r));
  }

  /** Appending an instance numbered at or after the bound keeps the layout, with the bound past it. */
  lemma LayoutSnoc(cs: seq<Node>, slots: seq<Slot>, prefix: string, bound: nat, n: Node, k: nat)
    requires Layout(cs, slots, prefix, bound)
    requires bound <= k && Occupies(n, prefix, Instance(k))
    ensures Layout(cs + [n], slots + [Instance(k)], prefix, k + 1)
  {
    var cs', slots' := cs + [n], slots + [Instance(k)];
    forall j | 0 <= j < |cs'|
      ensures Occupies(cs'[j], prefix, slots'[j])
    {
      if j < |cs| {
        assert cs'[j] == cs[j] && slots'[j] == slots[j];
      }
    }
  }

  /** Removing any child keeps the layout. */
  lemma LayoutRemove(cs: seq<Node>, slots: seq<Slot>, prefix: string, bound: nat, i: nat)
    requires Layout(cs, slots, prefix, bound) && i < |cs|
    ensures Layout(RemoveAt(cs, i), slots[..i] + slots[i + 1..], prefix, bound)
  {
    var cs', slots' := RemoveAt(cs, i), slots[..i] + slots[i + 1..];
    assert forall j :: 0 <= j < |slots'| ==> slots'[j] == if j < i then slots[j] else slots[j + 1];
    forall a, b | 0 <= a < b < |slots'|
      ensures Rank(slots'[a]) < Rank(slots'[b])
    {
      var a0, b0 := if a < i then a else a + 1, if b < i then b else b + 1;
      assert slots'[a] == slots[a0] && slots'[b] == slots[b0];
    }
  }

  /** Slots of different rank hold different ids; the controls' id ends in "s", an instance's in "r". */
  lemma SlotIdsDistinct(prefix: string, s: Slot, t: Slot)
    requires Rank(s) != Rank(t)
    ensures SlotId(prefix, s) != SlotId(prefix, t)
  {
    match (s, t)
    case (Instance(m), Instance(n)) => ItemContainerIdsDistinctV2(prefix, m, n);
    case (Controls, Instance(n)) =>
      var id := SlotId(prefix, t);
      assert id[|id| - 1] == 'r';
    case (Instance(m), Controls) =>
      var id := SlotId(prefix, s);
      assert id[|id| - 1] == 'r';
    case (Controls, Controls) =>
  }

  /** In a laid-out container no two children share an id. */
  lemma LayoutIdsDistinct(cs: seq<Node>, slots: seq<Slot>, prefix: string, bound: nat)
    requires Layout(cs, slots, prefix, bound)
    ensures forall a, b :: 0 <= a < b < |cs| ==> Id(cs[a]) != Id(cs[b])
  {
    forall a, b | 0 <= a < b < |cs|
      ensures Id(cs[a]) != Id(cs[b])
    {
      SlotIdsDistinct(prefix, slots[a], slots[b]);
    }
  }

  /**
   * In a laid-out container only instances have a remove button, and the
   * first child with the id it names is that very instance.
   */
  lemma RemoveTargetIsItself(cs: seq<Node>, slots: seq<Slot>, prefix: string, bound: nat, j: nat)
    requires Layout(cs, slots, prefix, bound)
    requires j < |cs| && HasRemoveButton(cs[j])
    ensures slots[j].Instance?
    ensures FirstChild(cs, ById(RemoveTarget(cs[j]))) == Some(j)
  {
    assert Occupies(cs[j], prefix, slots[j]);
    if slots[j].Controls? {
      assert false;
    }
    var id := RemoveTarget(cs[j]);
    assert Id(cs[j]) == id && id != "";
    LayoutIdsDistinct(cs, slots, prefix, bound);
    forall i | 0 <= i < |cs| && i != j
      ensures Id(cs[i]) != id
    {
      if i < j {
        assert Id(cs[i]) != Id(cs[j]);
      } else {
        assert Id(cs[j]) != Id(cs[i]);
      }
    }
    FirstWithId(cs, j, id);
  }

  /** When only child j has the id, the first child with it is child j. */
  lemma FirstWithId(cs: seq<Node>, j: nat, id: string)
    requires j < |cs| && Matches(cs[j], ById(id))
    requires forall i :: 0 <= i < |cs| && i != j ==> Id(cs[i]) != id
    ensures FirstChild(cs, ById(id)) == Some(j)
  {
    match FirstChild(cs, ById(id))
    case None =>
    case Some(i) =>
      assert Id(cs[i]) == id;
  }

  /**
   * A click on the remove button of an instance removes exactly that
   * instance: every other child stays, in order.
   */
  lemma RemoveClickedInstance(cs: seq<Node>, slots: seq<Slot>, prefix: string, bound: nat, j: nat)
    requires Layout(cs, slots, prefix, bound)
    requires j < |cs| && HasRemoveButton(cs[j])
    ensures var r := RemoveById(cs, RemoveTarget(cs[j]));
      && |r| == |cs| - 1
      && (forall i :: 0 <= i < j ==> r[i] == cs[i])
      && (forall i :: j <= i < |r| ==> r[i] == cs[i + 1])
  {
    RemoveTargetIsItself(cs, slots, prefix, bound, j);
  }

  /**
   * However adds and removes have interleaved, no two children of the
   * container share an id, and the first child with the id a remove button
   * names is the child holding that button.
   */
  lemma FormRemoveTargets(f: MultiForm)
    requires f.Valid()
    ensures forall a, b :: 0 <= a < b < |f.container.container.children| ==>
              Id(f.container.container.children[a]) != Id(f.container.container.children[b])
    ensures forall j :: 0 <= j < |f.container.container.children| && HasRemoveButton(f.container.container.children[j]) ==>
              FirstChild(f.container.container.children, ById(RemoveTarget(f.container.container.children[j]))) == Some(j)
  {
    var cs := f.container.container.children;
    LayoutIdsDistinct(cs, f.slots, f.template.prefix, f.template.currentIteration);
    forall j | 0 <= j < |cs| && HasRemoveButton(cs[j])
      ensures FirstChild(cs, ById(RemoveTarget(cs[j]))) == Some(j)
    {
      RemoveTargetIsItself(cs, f.slots, f.template.prefix, f.template.currentIteration, j);
    }
  }
}
