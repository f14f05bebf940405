/**
 * The part of the DOM the multiform code touches: element and
 * character-data nodes as values, attribute lookups with the DOM's
 * defaults, the class list kept in the `class` attribute, the few
 * selector queries the code runs on a container's children, and the
 * live elements it changes in place.
 */
module Dom {
  import opened Wrappers
  import opened ClassTokens

  /**
   * A node as `cloneNode(true)` would copy it. Character data are the text
   * and comment nodes, whose `nodeName` ("#text", "#comment") contains '#';
   * every other node is an element, whose `nodeName` is its tag name.
   */
  datatype Node =
    | Element(tag: string, attrs: map<string, string>, children: seq<Node>)
    | CharacterData(nodeName: string, data: string)

  /** `getAttribute(name)`: the value, or null when the attribute is absent. */
  function Attribute(attrs: map<string, string>, name: string): Option<string> {
    if name in attrs then Some(attrs[name]) else None
  }

  /** A reflected string property such as `.id`: the attribute's value, or "" when absent. */
  function Reflected(attrs: map<string, string>, name: string): string {
    if name in attrs then attrs[name] else ""
  }

  predicate StartsWith(s: string, p: string) {
    |p| <= |s| && s[..|p|] == p
  }

  /** `classList`: the ordered set of tokens of the `class` attribute. */
  function ClassList(attrs: map<string, string>): seq<string> {
    OrderedSet(Split(Reflected(attrs, "class")))
  }

  lemma ClassListIsTokenSet(attrs: map<string, string>)
    ensures IsTokenSet(ClassList(attrs))
  {
    SplitGivesTokens(Reflected(attrs, "class"));
    OrderedSetIsTokenSet(Split(Reflected(attrs, "class")));
  }

  /** The attributes once the token list cs is written back to `class`. */
  function WithClassList(attrs: map<string, string>, cs: seq<string>): map<string, string> {
    attrs["class" := Serialize(cs)]
  }

  /** Reading back a written token set gives it again; nothing else changes. */
  lemma ClassListWithClassList(attrs: map<string, string>, cs: seq<string>)
    requires IsTokenSet(cs)
    ensures ClassList(WithClassList(attrs, cs)) == cs
    ensures forall k :: k != "class" ==> Attribute(WithClassList(attrs, cs), k) == Attribute(attrs, k)
  {
    ParseSerialized(cs);
  }

  /** `classList.add(c)` on an element whose class list was just written back. */
  lemma WithClassOnWritten(attrs: map<string, string>, cs: seq<string>, c: string)
    requires IsTokenSet(cs)
    ensures WithClass(WithClassList(attrs, cs), c) == WithClassList(attrs, AddToken(cs, c))
  {
    ClassListWithClassList(attrs, cs);
    assert WithClassList(attrs, cs)["class" := Serialize(AddToken(cs, c))] == WithClassList(attrs, AddToken(cs, c));
  }

  /** The attributes after `classList.add(c)`: the token set with c appended, written back. */
  function WithClass(attrs: map<string, string>, c: string): map<string, string> {
    WithClassList(attrs, AddToken(ClassList(attrs), c))
  }

  /** `classList.add(c)` appends c to the class list unless it is there already. */
  lemma ClassListWithClass(attrs: map<string, string>, c: string)
    requires IsToken(c)
    ensures ClassList(WithClass(attrs, c)) == AddToken(ClassList(attrs), c)
    ensures forall k :: k != "class" ==> Attribute(WithClass(attrs, c), k) == Attribute(attrs, k)
  {
    ClassListIsTokenSet(attrs);
    AddTokenKeepsTokenSet(ClassList(attrs), c);
    ClassListWithClassList(attrs, AddToken(ClassList(attrs), c));
  }

  /** Setting another attribute leaves the class list alone. */
  lemma ClassListOtherUpdate(attrs: map<string, string>, k: string, v: string)
    requires k != "class"
    ensures ClassList(attrs[k := v]) == ClassList(attrs)
  {
    assert Reflected(attrs[k := v], "class") == Reflected(attrs, "class");
  }

  /**
   * The attributes of a new element after `classList.add` of each class of
   * the token set cs: the attribute exists only once something was added.
   */
  function FreshWithClasses(cs: seq<string>): map<string, string> {
    if cs == [] then map[] else WithClassList(map[], cs)
  }

  lemma FreshWithClassesFacts(cs: seq<string>)
    requires IsTokenSet(cs)
    ensures ClassList(FreshWithClasses(cs)) == cs
    ensures forall k :: k != "class" ==> k !in FreshWithClasses(cs)
    ensures "class" in FreshWithClasses(cs) <==> cs != []
  {
    if cs != [] {
      ClassListWithClassList(map[], cs);
    }
  }

  /** One more `classList.add` on such an element keeps it of that form. */
  lemma AddToFresh(cs: seq<string>, c: string)
    requires IsTokenSet(cs) && IsToken(c)
    ensures WithClass(FreshWithClasses(cs), c) == FreshWithClasses(AddToken(cs, c))
  {
    FreshWithClassesFacts(cs);
    assert AddToken(cs, c) != [];
    assert FreshWithClasses(AddToken(cs, c)) == map["class" := Serialize(AddToken(cs, c))];
  }

  /**
   * The attributes after one `classList.remove(...)` of the tokens cs: the
   * attribute is rewritten when it exists, and left absent otherwise.
   */
  function WithoutClasses(attrs: map<string, string>, cs: seq<string>): map<string, string> {
    if "class" in attrs then WithClassList(attrs, RemoveTokens(ClassList(attrs), cs)) else attrs
  }

  lemma ClassListWithoutClasses(attrs: map<string, string>, cs: seq<string>)
    ensures ClassList(WithoutClasses(attrs, cs)) == RemoveTokens(ClassList(attrs), cs)
    ensures forall k :: k != "class" ==> Attribute(WithoutClasses(attrs, cs), k) == Attribute(attrs, k)
  {
    ClassListIsTokenSet(attrs);
    RemoveTokensKeepsTokenSet(ClassList(attrs), cs);
    if "class" in attrs {
      ParseSerialized(RemoveTokens(ClassList(attrs), cs));
    }
  }

  /** The `id` property of a node (character data have none). */
  function Id(n: Node): string {
    if n.Element? then Reflected(n.attrs, "id") else ""
  }

  predicate HasClass(n: Node, c: string) {
    n.Element? && c in ClassList(n.attrs)
  }

  /** The two simple selectors the code uses: `#id` and `.class`. */
  datatype Selector = ById(id: string) | ByClass(name: string)

  predicate Matches(n: Node, sel: Selector) {
    match sel
    case ById(id) => n.Element? && "id" in n.attrs && n.attrs["id"] == id
    case ByClass(c) => HasClass(n, c)
  }

  /** `$(parent).children(sel)[0]`: the index of the first child matching sel. */
  function FirstChild(cs: seq<Node>, sel: Selector): (r: Option<nat>)
    ensures r.Some? ==> r.value < |cs| && Matches(cs[r.value], sel)
    ensures r.Some? ==> forall j :: 0 <= j < r.value ==> !Matches(cs[j], sel)
    ensures r.None? ==> forall j :: 0 <= j < |cs| ==> !Matches(cs[j], sel)
  {
    if cs == [] then None
    else if Matches(cs[0], sel) then Some(0)
    else match FirstChild(cs[1..], sel)
      case None => None
      case Some(i) => Some(i + 1)
  }

  function RemoveAt(cs: seq<Node>, i: nat): (r: seq<Node>)
    requires i < |cs|
    ensures |r| == |cs| - 1
    ensures forall j :: 0 <= j < i ==> r[j] == cs[j]
    ensures forall j :: i <= j < |r| ==> r[j] == cs[j + 1]
  {
    cs[..i] + cs[i + 1..]
  }

  /** A DOM element the code changes in place. */
  class LiveElement {
    var tag: string
    var attrs: map<string, string>
    var children: seq<Node>

    /** `document.createElement(tag)`. */
    constructor (tag: string)
      ensures this.tag == tag && attrs == map[] && children == []
    {
      this.tag := tag;
      attrs := map[];
      children := [];
    }

    /** A live copy of an element, as `cloneNode(true)` gives. */
    constructor FromNode(n: Node)
      requires n.Element?
      ensures Value() == n
    {
      tag := n.tag;
      attrs := n.attrs;
      children := n.children;
    }

    /** The subtree rooted here, as a value. */
    function Value(): Node
      reads this
    {
      Element(tag, attrs, children)
    }

    method SetAttribute(name: string, value: string)
      modifies this
      ensures attrs == old(attrs)[name := value]
      ensures tag == old(tag) && children == old(children)
    {
      attrs := attrs[name := value];
    }

    /** `classList.add(c)`. */
    method AddClass(c: string)
      requires IsToken(c)
      modifies this
      ensures attrs == WithClass(old(attrs), c)
      ensures tag == old(tag) && children == old(children)
    {
      attrs := WithClass(attrs, c);
    }

    /** `classList.remove(cs[0], cs[1], ...)`. */
    method RemoveClasses(cs: seq<string>)
      modifies this
      ensures attrs == WithoutClasses(old(attrs), cs)
      ensures tag == old(tag) && children == old(children)
    {
      attrs := WithoutClasses(attrs, cs);
    }

    method AppendChild(n: Node)
      modifies this
      ensures children == old(children) + [n]
      ensures tag == old(tag) && attrs == old(attrs)
    {
      children := children + [n];
    }

    /** `appendChild` of each node of ns in turn. */
    method AppendChildren(ns: seq<Node>)
      modifies this
      ensures children == old(children) + ns
      ensures tag == old(tag) && attrs == old(attrs)
    {
      for i := 0 to |ns|
        invariant children == old(children) + ns[..i]
        invariant tag == old(tag) && attrs == old(attrs)
      {
        assert ns[..i + 1] == ns[..i] + [ns[i]];
        AppendChild(ns[i]);
      }
      assert ns[..|ns|] == ns;
    }

    method RemoveChild(i: nat)
      requires i < |children|
      modifies this
      ensures children == RemoveAt(old(children), i)
      ensures tag == old(tag) && attrs == old(attrs)
    {
      children := RemoveAt(children, i);
    }

    /** A change made inside the subtree of the i-th child. */
    method UpdateChild(i: nat, n: Node)
      requires i < |children|
      modifies this
      ensures children == old(children)[i := n]
      ensures tag == old(tag) && attrs == old(attrs)
    {
      children := children[i := n];
    }
  }
}
