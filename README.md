# multiform in Dafny

MultiForm is a jQuery plugin for one-to-many forms. It turns a set of form
fields into a template that can be repeated. Each repeated instance is a
`<div>` holding deep copies of the template's nodes. Every copied field
gets an instance prefix on its `id` and `name`, and every copied label gets
it on its `for`. A remove button at the end of each instance points back at
the instance by id. Each click on the add button appends the next instance.
Items already on the page are turned into the first instances.

The repository ships two versions of the plugin, and both are modelled:

- `js/multiform.js` (0.3) has a `multiFormInstance` controller per
  container, configured by `data-prefix`, and it records them in the
  `multiForm.forms` registry.
- `multiform.js` (0.2) has `$.fn.multiForm(prefix, func)`, built from a
  `Template` and a `MultiformContainer`.

The two share the `Array.prototype.includes` polyfill and `cloneFormNodes`.

How the model is laid out:

- **Elements the code changes in place** are `Dom.LiveElement` objects:
  the container, the items, and the instance containers and buttons it
  builds. Each has a tag, an attribute map and a sequence of child `Node`
  values.
- **Everything below them is a `Dom.Node` value**, so `cloneNode(true)`
  is the value itself.
- **`classList` is an ordered set of tokens.** It is parsed from and
  serialized to the `class` attribute, as a DOMTokenList does
  (`ClassTokens`).
- **Modules:**
  - `Wrappers`: the `Option` datatype.
  - `Decimal`: `Number#toString` on the integers from 0 up to 2^53.
  - `ClassTokens`
  - `Dom`
  - `ArrayIncludes`
  - `Cloner`
  - `Identifiers`: instance prefixes and ids.
  - `TemplateV3` and `MultiFormV3` model `js/multiform.js`.
  - `TemplateV2` and `MultiFormV2` model `multiform.js`.

The main results:

- A clone is exactly the node with the prefix rules applied, and nothing
  else is a clone (`Cloner.CloneIsCloneOf`, `Cloner.CloneOfIsClone`).
- In both versions, the container always holds the controls followed by
  consecutive instances.
- Every instance's remove button points at that instance's own id.
- No two children of the container share an id, and field ids of
  different instances never collide.
- In 0.2, a remove click removes exactly the clicked instance and keeps
  these invariants (`MultiFormV2.MultiForm.ClickRemove`).

`cloneFormNodes` and `Array.prototype.includes` are word for word the same
in both source files (lines 13-118). Their rows cite `js/multiform.js`. The
rows for `Decimal`, `ClassTokens` and `Dom` model the JavaScript and DOM
operations the plugin calls, and they cite one place where each is used.

## Model

| member | source | states |
|---|---|---|
| ArrayIncludes.Includes | js/multiform.js:16-61 | an empty array gives false; otherwise true exactly when some element at or after the start index equals the search element |
| ArrayIncludes.IncludesFromZero | js/multiform.js:87 | without fromIndex, includes is plain membership, which is how FORM_ELEMENTS.includes is used |
| Decimal.Digit | js/multiform.js:157 | each digit is one of the characters 0-9 |
| Decimal.NatToString | js/multiform.js:157 | the decimal text of a counter is non-empty, all digits, and has no leading zero |
| Decimal.ValueOfNatToString | js/multiform.js:157 | reading the decimal text back gives the counter |
| Decimal.NatToStringInjective | js/multiform.js:157 | different counters have different decimal texts |
| Decimal.DigitsThenDash | js/multiform.js:157 | digits + "-" + rest splits back into its digits and its rest in only one way |
| ClassTokens.LeadingToken | js/multiform.js:139-141 | the leading token is a whitespace-free prefix that ends at whitespace or at the end |
| ClassTokens.SplitGivesTokens | js/multiform.js:139-141 | splitting a class attribute gives non-empty whitespace-free tokens |
| ClassTokens.LeadingTokenOfToken | js/multiform.js:139-141 | a token followed by whitespace or nothing is read back whole |
| ClassTokens.SplitSerialize | js/multiform.js:161-163 | splitting serialized tokens gives the tokens back |
| ClassTokens.OrderedSetIsTokenSet | js/multiform.js:139-141 | the ordered set of the tokens has no duplicates |
| ClassTokens.OrderedSetOfTokenSet | js/multiform.js:139-141 | the ordered set of distinct tokens is those tokens |
| ClassTokens.AddTokenKeepsTokenSet | js/multiform.js:162 | classList.add keeps the list a set of tokens |
| ClassTokens.AddTokenFacts | js/multiform.js:162 | classList.add keeps the old tokens in order and adds only the new one |
| ClassTokens.RemoveTokensKeepsTokenSet | multiform.js:159 | classList.remove keeps a token exactly when it is present and not removed |
| ClassTokens.ParseSerialized | js/multiform.js:161-163 | a class list written to the attribute reads back unchanged |
| Dom.ClassListIsTokenSet | js/multiform.js:139-141 | an element's classList is always a set of tokens |
| Dom.ClassListWithClassList | js/multiform.js:161-163 | writing a class list and reading it back gives that list; other attributes are untouched |
| Dom.WithClassOnWritten | js/multiform.js:178-182 | adding a class to a written class list is writing the list with the class added |
| Dom.ClassListWithClass | js/multiform.js:162 | classList.add on an attribute map changes only the class list, as AddToken does |
| Dom.ClassListOtherUpdate | js/multiform.js:185-186 | setting an attribute other than class leaves the class list alone |
| Dom.FreshWithClassesFacts | js/multiform.js:155-163 | a new div given some classes has exactly those classes and no other attribute |
| Dom.AddToFresh | js/multiform.js:161-163 | adding one more class to a new div is the same as creating it with that class |
| Dom.ClassListWithoutClasses | multiform.js:159 | removing classes changes only the class list, as RemoveTokens does |
| Dom.FirstChild | js/multiform.js:345-349 | the first matching child: it matches, none before it matches, and None means no child matches |
| Dom.RemoveAt | js/multiform.js:148 | removeChild drops exactly one child and keeps the others in order |
| Dom.LiveElement.constructor | js/multiform.js:155 | document.createElement gives an element with no attributes and no children |
| Dom.LiveElement.FromNode | js/multiform.js:167 | a live copy of a node has that node's value |
| Dom.LiveElement.SetAttribute | js/multiform.js:174 | setAttribute updates that attribute and nothing else |
| Dom.LiveElement.AddClass | js/multiform.js:162 | classList.add updates only the class attribute |
| Dom.LiveElement.RemoveClasses | multiform.js:159 | classList.remove updates only the class attribute |
| Dom.LiveElement.AppendChild | js/multiform.js:190 | appendChild adds the node as the last child |
| Dom.LiveElement.AppendChildren | js/multiform.js:189-191 | appending several nodes adds them at the end, in order |
| Dom.LiveElement.RemoveChild | js/multiform.js:148 | removeChild drops the indexed child |
| Dom.LiveElement.UpdateChild | js/multiform.js:320 | a change inside one child replaces that child and nothing else |
| Cloner.CloneAll | js/multiform.js:72-118 | there is one clone per input node |
| Cloner.CloneAllAt | js/multiform.js:75-116 | clone i is the clone of node i |
| Cloner.RewriteAttributesCloned | js/multiform.js:83-103 | the copied attributes meet the prefix rules: on fields, id and name are prefixed; on labels, for is prefixed; on other elements, id and name are prefixed only when set; all other attributes are copied |
| Cloner.CloneIsCloneOf | js/multiform.js:78-115 | a clone has the same tag, for text nodes the same data, attributes that meet the prefix rules, and cloned children |
| Cloner.CloneAllAreClonesOf | js/multiform.js:72-118 | the result has the nodes' length and order, and each entry is a clone of its node |
| Cloner.CloneOfIsClone | js/multiform.js:72-118 | the clone relation allows only one result, so cloning is fully determined |
| Cloner.CopyAttributes | js/multiform.js:83-85 | the attribute loop copies every attribute of the original |
| Cloner.PrefixIdentifiers | js/multiform.js:87-103 | the prefix step turns the copied attributes into the prefixed ones |
| Cloner.CloneFormNodes | js/multiform.js:72-118 | cloneFormNodes returns the deep prefixed clone of every node |
| Cloner.NodeAtAppend | js/multiform.js:189-199 | nodes appended after the copies do not change what a path into the copies reaches |
| Cloner.NodeAtCloneAll | js/multiform.js:109-115 | a path leads somewhere in the copies exactly when it does in the originals, and there it reaches the copy of the original node |
| Cloner.ClonedFieldAt | js/multiform.js:87-90 | a form field at any depth is copied with id and name equal to the prefix followed by the original's id and name |
| Identifiers.NumberedNamesDistinct | js/multiform.js:157 | lead + counter + "-" + name determines the counter and the name |
| Identifiers.PrefixedNamesDistinct | js/multiform.js:157 | a 0.3 instance prefix followed by a name determines the iteration and the name |
| Identifiers.InstancePrefixReadsBack | js/multiform.js:157 | the 0.3 instance prefix is the template's prefix, "_", the iteration in decimal (read back as the iteration) and "-" |
| Identifiers.InstancePrefixV2ReadsBack | multiform.js:166-170 | the 0.2 instance prefix equals the 0.3 one for a non-empty prefix, and is the iteration in decimal followed by "-" otherwise |
| Identifiers.PrefixedNamesDistinctV2 | multiform.js:166-170 | a 0.2 instance prefix followed by a name determines the iteration and the name, with or without a prefix |
| Identifiers.ItemContainerIdsDistinct | js/multiform.js:185 | different iterations get different item-container ids |
| Identifiers.ItemContainerIdsDistinctV2 | multiform.js:173 | different iterations get different item-container ids |
| TemplateV3.Template.constructor | js/multiform.js:129-152 | the template captures the base's children in order and its class list, the base is left empty, and the counter is the given iteration |
| TemplateV3.Template.Instance | js/multiform.js:154-205 | instance() returns the instance for the current iteration and advances the counter by one |
| TemplateV3.Template.CreateInstance | js/multiform.js:212-272 | createInstance advances the counter by one |
| TemplateV3.NewInstanceContainer | js/multiform.js:155-163 | the new div carries exactly the template's classes |
| TemplateV3.MakeRemoveButton | js/multiform.js:156-186 | the remove button is the styled template button or the default one, pointing at the instance |
| TemplateV3.NewRemoveButton | js/multiform.js:156-170 | a deep copy of the configured remove button, or a new div whose text is "Remove" |
| TemplateV3.AddBootstrapClasses | js/multiform.js:178-181 | adds btn, then the variant unless the class attribute, as it reads once btn has been added, starts with "btn-" |
| TemplateV3.StyleRemoveButton | js/multiform.js:173-182 | sets type to button when it is empty and adds the remove-button classes |
| TemplateV3.InstanceShape | js/multiform.js:154-205 | an instance is a div with id `<prefix>_<n>-item_container` and the template's classes, and has no other attribute; it holds clones of the nodes and then a remove button pointing at that id |
| TemplateV3.VariantRule | js/multiform.js:179 | after btn is added, the class attribute starts with "btn-" exactly when the first old class does |
| TemplateV3.SerializeStartsWith | js/multiform.js:179 | a serialized class attribute starts with a token prefix exactly when its first class does |
| TemplateV3.BootstrapClassesFacts | js/multiform.js:178-181 | the old classes stay in order; btn is present; the variant is present exactly when it already was, is btn, there was no class, or the first class does not start with "btn-"; nothing else is added |
| TemplateV3.ButtonClassListFacts | js/multiform.js:178-182 | the remove button keeps its classes in order and gains btn, multiform-remove, and btn-danger unless its first class starts with "btn-"; nothing else is added |
| TemplateV3.LaterVariantIgnored | js/multiform.js:179 | a button with classes "foo btn-primary" keeps btn-primary and is also given the variant |
| TemplateV3.IntendedBootstrapClassesFacts | js/multiform.js:303-306 | under the rule the comment states, a button always ends with a variant and is given one only if it had none |
| TemplateV3.RemoveButtonFacts | js/multiform.js:166-186 | the remove button keeps its tag and children, points at the item container, has type button unless one was set, and has only the class changes listed above |
| TemplateV3.InstanceFieldNames | js/multiform.js:154-158 | a form field at any depth of instance n has id and name equal to the instance prefix followed by the template field's id and name |
| TemplateV3.FieldIdsNeverCollide | js/multiform.js:157-158 | form fields of two different instances never share an id, wherever each sits in the template |
| MultiFormV3.RemoveButtonTemplate | js/multiform.js:345-349 | the remove button starts from an element |
| MultiFormV3.MainInstances | js/multiform.js:384-392 | the main template's instances from..to-1, one per iteration |
| MultiFormV3.ItemInstances | js/multiform.js:370-381 | one instance per pre-populated item |
| MultiFormV3.MultiFormInstance.constructor | js/multiform.js:337-398 | the constructor stops at an exception exactly when setupRemoveButton throws, leaving the container as setupControls and setupRemoveButton left it and the items untouched; otherwise the container holds the controls, one instance per item, then main instance k, the template holds what the setup steps left, each item is emptied, and the controller is Valid |
| MultiFormV3.MultiFormInstance.Setup | js/multiform.js:337-366 | the controls get their id and the remove button is set; it throws exactly when setupRemoveButton does, and otherwise a fresh main template captures the remaining children and the container then holds only the controls |
| MultiFormV3.MultiFormInstance.Populate | js/multiform.js:368-387 | the items become instances 0..k-1 in order, the counter moves past them, and instance k is appended |
| MultiFormV3.MultiFormInstance.SetupControls | js/multiform.js:278-313 | the add-button template is taken out of the container; the controls hold its styled copy, nothing (when the page's button is used), or a styled default button |
| MultiFormV3.MultiFormInstance.SetupRemoveButton | js/multiform.js:315-335 | the remove-button template is taken from its container or from the container itself, or a default X button is made, and it gains the `<prefix>-multiform_remove` class; the call throws exactly when a `.remove-container` has no `.remove-button` (an undeclared variable is read) or the prefix holds whitespace (classList.add refuses the class), and the state it leaves is stated for both |
| MultiFormV3.MultiFormInstance.AddItems | js/multiform.js:370-381 | each item's children are captured and removed, and its instance is appended in order |
| MultiFormV3.MultiFormInstance.InstantiateItem | js/multiform.js:371-377 | one item becomes instance i of its own template, and the item is emptied |
| MultiFormV3.MultiFormInstance.Add | js/multiform.js:391-397 | an add click appends the next instance and keeps the layout invariant |
| MultiFormV3.StyleAddButton | js/multiform.js:301-312 | the add button gets the bootstrap classes, id `<prefix>-multiform_add`, and type button unless one was set |
| MultiFormV3.Registry.constructor | js/multiform.js:458 | the registry starts empty |
| MultiFormV3.Registry.Register | js/multiform.js:465-473 | when construction succeeds, the new controller is stored under its data-prefix, replacing an old one with that prefix, and other entries stay; when it throws, nothing is registered and the container keeps what the setup steps did |
| MultiFormV3.MainInstancesSnoc | js/multiform.js:391-392 | one more add appends instance `to` to the main instances |
| MultiFormV3.ItemInstancesSnoc | js/multiform.js:370-381 | one more item appends its instance to the item instances |
| MultiFormV3.InstancePointsAtItself | js/multiform.js:184-186 | the remove button of instance k names instance k's id |
| MultiFormV3.ItemInstancesPointAtThemselves | js/multiform.js:370-381 | item instance k points at itself with iteration k |
| MultiFormV3.MainInstancesPointAtThemselves | js/multiform.js:384-392 | main instance k points at itself with iteration from + k |
| MultiFormV3.FormLayout | js/multiform.js:365-397 | a valid form holds the controls and then instances 0..n-1, each pointing at itself |
| MultiFormV3.LayoutPointsAtThemselves | js/multiform.js:365-392 | the controls, then items, then main instances, give child j iteration j-1 |
| MultiFormV3.ControlsIdIsNotAnInstanceId | js/multiform.js:280-283 | the controls id is never an item-container id |
| MultiFormV3.FormIdsDistinct | js/multiform.js:365-397 | no two children of a valid form's container share an id |
| MultiFormV3.LayoutIdsDistinct | js/multiform.js:184-185 | in the controls-then-instances layout, ids are pairwise distinct |
| MultiFormV3.AddButtonFacts | js/multiform.js:301-312 | the styled add button keeps its tag and children; its id is `<prefix>-multiform_add`; its type is button unless one was set; it keeps its classes and gains btn, and btn-success unless its first class starts with "btn-" |
| MultiFormV3.RemoveButtonClasses | js/multiform.js:334 | every instance's remove button carries both multiform-remove and `<prefix>-multiform_remove` |
| TemplateV2.Template.constructor | multiform.js:126-141 | the template captures the base's children in order and its class list, the base is left empty, and the counter is 0 |
| TemplateV2.Template.CreateInstance | multiform.js:147-189 | createInstance returns the instance for the current iteration and advances the counter by one |
| TemplateV2.NewRemoveButton | multiform.js:151-164 | the remove button is a div of type button, with class "btn btn-danger multiform-remove" and text "Remove" |
| TemplateV2.NewInstanceContainer | multiform.js:150-159 | the new div has the template's classes minus multiform and multiform-item |
| TemplateV2.InstanceShape | multiform.js:147-189 | an instance is a div with id `[<prefix>_]<n>-item_container` and the template's classes minus the marker classes; it holds clones of the nodes and then the remove button pointing at that id |
| TemplateV2.InstanceClasses | multiform.js:153-159 | a class is on the instance exactly when it is on the template and is not a marker; an instance has no attributes other than id and class |
| TemplateV2.RemoveButtonFacts | multiform.js:161-174 | the remove button has type button, the three classes, a data-itemcontainer naming the instance, and the text "Remove" |
| TemplateV2.InstanceFieldNames | multiform.js:166-177 | a form field at any depth of instance n has id and name equal to the instance prefix followed by the template field's id and name |
| TemplateV2.FieldIdsNeverCollide | multiform.js:166-177 | form fields of two different instances never share an id, wherever each sits in the template |
| MultiFormV2.ItemInstances | multiform.js:248-254 | one instance per pre-populated item |
| MultiFormV2.MultiformContainer.constructor | multiform.js:197-208 | the add button and its controls are built, and the controls are appended to the container |
| MultiFormV2.MultiformContainer.AppendChild | multiform.js:214-215 | appendChild adds the child at the end of the container |
| MultiFormV2.MultiformContainer.Remove | multiform.js:219-221 | a remove click removes the first child with the data-itemcontainer id, or nothing if none has it |
| MultiFormV2.MultiForm.constructor | multiform.js:231-241 | the form starts with only the controls and no add calls |
| MultiFormV2.MultiForm.Populate | multiform.js:247-260 | the items become instances 0..k-1 in order, the counter moves past them, and instance k is appended; the form becomes Valid |
| MultiFormV2.MultiForm.AddItems | multiform.js:248-254 | each item's children are captured and removed, and its instance is appended in order |
| MultiFormV2.MultiForm.InstantiateItem | multiform.js:249-252 | one item becomes instance i of its own template, and the item is emptied |
| MultiFormV2.MultiForm.AppendMainInstance | multiform.js:257-260 | the next main instance is appended and the layout invariant holds |
| MultiFormV2.MultiForm.Add | multiform.js:263-269 | an add click appends the next instance, keeps the invariant, and calls postAddFunc once when it is given |
| MultiFormV2.MultiForm.ClickRemove | multiform.js:219-221 | clicking a remove button removes exactly the instance holding it, and the invariant still holds |
| MultiFormV2.Build | multiform.js:231-271 | `$.fn.multiForm`: the template captures the base's children and classes, the base's class attribute becomes empty, it gets id multiform-container, and it holds the controls, item instances 0..k-1 and main instance k; the counter is k+1 |
| MultiFormV2.ItemSlots | multiform.js:248-254 | item j takes slot j |
| MultiFormV2.ItemsLayout | multiform.js:247-257 | the controls followed by the item instances meet the layout invariant |
| MultiFormV2.ItemInstancesSnoc | multiform.js:248-254 | one more item appends its instance to the item instances |
| MultiFormV2.InstanceOccupiesItsSlot | multiform.js:172-183 | instance k has id k and a remove button that points at it |
| MultiFormV2.LayoutSnoc | multiform.js:263-264 | appending an instance with a higher iteration keeps the layout invariant |
| MultiFormV2.LayoutRemove | multiform.js:219-221 | removing any child keeps the layout invariant |
| MultiFormV2.SlotIdsDistinct | multiform.js:166-173 | different slots have different ids |
| MultiFormV2.LayoutIdsDistinct | multiform.js:166-173 | no two children of the container share an id |
| MultiFormV2.RemoveTargetIsItself | multiform.js:219-221 | a remove button's target id finds the child that holds the button, which is an instance |
| MultiFormV2.FirstWithId | multiform.js:220 | a unique id is found at its own index |
| MultiFormV2.RemoveClickedInstance | multiform.js:219-221 | removing by the clicked button's target drops exactly the clicked child |
| MultiFormV2.FormRemoveTargets | multiform.js:214-221 | in a valid form, container ids are distinct and every remove button targets its own instance |

## Findings

| source | as written | input that shows it | evidently intended | confidence | as-written member | corrected member |
|---|---|---|---|---|---|---|
| js/multiform.js:179 | the remove button is given btn-danger unless its class attribute starts with "btn-" (`[class^='btn-']` looks only at the start of the whole attribute) | a remove-button template with class "foo btn-primary" ends with both btn-primary and btn-danger | btn-danger only when no class is a btn- variant, the rule js/multiform.js:303 states for the add button | medium, not executed | TemplateV3.LaterVariantIgnored | TemplateV3.IntendedBootstrapClassesFacts |
| js/multiform.js:304 | the add button is given btn-success unless its class attribute starts with "btn-" | an add-button template with class "foo btn-primary" ends with both btn-primary and btn-success | "Only add btn-success if another type of button hasn't been set" (js/multiform.js:303) | medium, not executed | TemplateV3.LaterVariantIgnored | TemplateV3.IntendedBootstrapClassesFacts |

The buttons of the model follow the code as written: `TemplateV3.BootstrapClasses` is what both buttons are given. `TemplateV3.IntendedBootstrapClasses` is the corrected rule, with its property proved beside it. It stands next to the as-written rule and does not replace it, because the model describes what the library does.

## Definitions

These functions write out one source expression each. They carry no
contract of their own. The lemma in the last column pins each one down.

| definition | source | pinned down by |
|---|---|---|
| ArrayIncludes.StartIndex | js/multiform.js:33-42 | ArrayIncludes.Includes, ArrayIncludes.IncludesFromZero |
| Dom.Attribute | js/multiform.js:93, 173 | Cloner.RewriteAttributesCloned (the "null" of a missing `for`) |
| Dom.Reflected | js/multiform.js:89-100 | Cloner.RewriteAttributesCloned, Cloner.ClonedFieldAt |
| Dom.ClassList, Dom.WithClass, Dom.WithoutClasses, Dom.FreshWithClasses | js/multiform.js:139-141, 161-163; multiform.js:159 | Dom.ClassListWithClass, Dom.ClassListWithoutClasses, Dom.FreshWithClassesFacts |
| Dom.Id, Dom.HasClass, Dom.Matches | js/multiform.js:341-349; multiform.js:220 | Dom.FirstChild |
| ClassTokens.Split, ClassTokens.OrderedSet, ClassTokens.Serialize | the DOMTokenList behind js/multiform.js:139-141, 162 | ClassTokens.SplitGivesTokens, ClassTokens.SplitSerialize, ClassTokens.ParseSerialized |
| ClassTokens.AddToken, ClassTokens.RemoveTokens | js/multiform.js:162; multiform.js:159 | ClassTokens.AddTokenFacts, ClassTokens.RemoveTokensKeepsTokenSet |
| Decimal.ValueOf | js/multiform.js:157 | Decimal.ValueOfNatToString |
| Identifiers.InstancePrefix | js/multiform.js:157 | Identifiers.InstancePrefixReadsBack, Identifiers.PrefixedNamesDistinct |
| Identifiers.InstancePrefixV2 | multiform.js:166-170 | Identifiers.InstancePrefixV2ReadsBack, Identifiers.PrefixedNamesDistinctV2 |
| Identifiers.ItemContainerId | js/multiform.js:185; multiform.js:173 | Identifiers.ItemContainerIdsDistinct, Identifiers.ItemContainerIdsDistinctV2 |
| Cloner.LabelFor, Cloner.RewriteAttributes | js/multiform.js:83-103 | Cloner.RewriteAttributesCloned |
| Cloner.Clone | js/multiform.js:78-115 | Cloner.CloneIsCloneOf, Cloner.CloneOfIsClone |
| Cloner.NodeAt | js/multiform.js:109-115 | Cloner.NodeAtCloneAll |
| TemplateV3.InstanceNode | js/multiform.js:154-205 | TemplateV3.InstanceShape, TemplateV3.InstanceFieldNames |
| TemplateV3.BootstrapClasses, TemplateV3.ButtonClassList | js/multiform.js:177-182, 301-306 | TemplateV3.BootstrapClassesFacts, TemplateV3.ButtonClassListFacts |
| TemplateV3.HasVariant, TemplateV3.IntendedBootstrapClasses | js/multiform.js:303 (the rule the comment states) | TemplateV3.IntendedBootstrapClassesFacts |
| TemplateV3.RemoveButtonBase, TemplateV3.RemoveButtonNode | js/multiform.js:156-186 | TemplateV3.RemoveButtonFacts |
| TemplateV2.InstanceNode, TemplateV2.InstanceAttributes | multiform.js:147-189 | TemplateV2.InstanceShape, TemplateV2.InstanceClasses |
| TemplateV2.RemoveButtonNode | multiform.js:161-174 | TemplateV2.RemoveButtonFacts |
| MultiFormV3.DataPrefix | js/multiform.js:340 (a missing data-prefix concatenates as "undefined") | MultiFormV3.MultiFormInstance.constructor |
| MultiFormV3.AddTemplateIndex, MultiFormV3.AfterControls, MultiFormV3.ControlsChildren, MultiFormV3.StyledAddButton | js/multiform.js:285-312, 341 | MultiFormV3.MultiFormInstance.SetupControls, MultiFormV3.AddButtonFacts |
| MultiFormV3.SupportedRemoveLayout, MultiFormV3.RemoveSetupCompletes, MultiFormV3.AfterRemoveSetup, MultiFormV3.AfterRemoveAttempt, MultiFormV3.MarkedRemoveButton | js/multiform.js:315-349 | MultiFormV3.MultiFormInstance.SetupRemoveButton, MultiFormV3.RemoveButtonClasses |
| MultiFormV2.RemoveById | multiform.js:220 | MultiFormV2.RemoveClickedInstance |
| MultiFormV2.Occupies, MultiFormV2.Layout | multiform.js:166-183 | MultiFormV2.LayoutSnoc, MultiFormV2.LayoutRemove, MultiFormV2.LayoutIdsDistinct |

## Left out

- jQuery selectors and the document. `$('#id')`, `.children(sel)[0]`,
  `.filter`, `.find` and `.data` are modelled on the container's direct
  children and the attribute map. The document-wide `#id` lookup of a
  remove click is modelled as a lookup among the container's children,
  where every instance lives.
- Event wiring. Binding and unbinding click handlers is left out. An add
  click is the `Add` method, and a remove click is `ClickRemove` (0.2).
- `item.parentElement.removeChild(item)` (js/multiform.js:379,
  multiform.js:253) is left out in both versions. The item's parent lies
  outside the model, and items are required to be outside the container.
- The legacy `MultiformContainer` and `$.fn.multiForm` of 0.3
  (js/multiform.js:406-453 and 480-556) are not part of this model. Their
  0.2 counterparts are modelled in `MultiFormV2`.
- Exceptions end the construction of a 0.3 controller. The model records
  this in the `aborted` field of `MultiFormV3.MultiFormInstance`, and
  `MultiFormV3.Registry.Register` returns `None` for it. An object whose
  construction was aborted never reaches the page's code. The stack
  unwinding itself is not modelled.
- MultiFormV3.MultiFormInstance.constructor, MultiFormV3.MultiFormInstance.Setup,
  MultiFormV3.MultiFormInstance.SetupRemoveButton, MultiFormV3.Registry.Register,
  MultiFormV2.MultiForm.ClickRemove: the selectors built from a prefix
  (`'#' + prefix + '-add_button'` at js/multiform.js:341,
  `'.' + prefix + '-multiform_item'` at js/multiform.js:351,
  `"#" + itemcontainer` at multiform.js:220) are matched literally. A prefix
  is taken to be made of CSS identifier characters. With `.`, `#`, `[` or
  whitespace in it, jQuery reads the selector differently or throws, and
  that is not modelled. A prefix with whitespace throws first at
  js/multiform.js:334, after `setupControls` has run. That exception is
  modelled as the thrown path of `SetupRemoveButton`.
- Decimal.NatToString, Identifiers.NumberedNamesDistinct,
  Identifiers.PrefixedNamesDistinct, Identifiers.PrefixedNamesDistinctV2,
  Identifiers.ItemContainerIdsDistinct, Identifiers.ItemContainerIdsDistinctV2,
  TemplateV3.FieldIdsNeverCollide, TemplateV2.FieldIdsNeverCollide,
  MultiFormV3.FormIdsDistinct, MultiFormV3.LayoutIdsDistinct,
  MultiFormV2.SlotIdsDistinct, MultiFormV2.LayoutIdsDistinct: these use
  unbounded naturals for `currentIteration` (js/multiform.js:133, 157, 203;
  multiform.js:129, 170). In the source it is a JavaScript Number. `++` is
  exact only below 2^53. Beyond that, two iterations could get the same
  text, and `toString` writes exponent notation from 10^21 on. The uniqueness lemmas
  therefore match the source only for counters below 2^53. That bound
  would take 2^53 add clicks to reach.
- MultiFormV3.MultiFormInstance.AddItems,
  MultiFormV3.MultiFormInstance.InstantiateItem,
  MultiFormV3.MultiFormInstance.constructor: `items.each(this.addItem, this)`
  (js/multiform.js:381) is modelled with the `.each` of jQuery 3, which
  ignores the second argument and calls `addItem(index, item)` for each
  item. The file says it requires jQuery 1.4.3 (js/multiform.js:5). There,
  and in jQuery 2, `.each` with a second argument applies `addItem` to that
  argument's entries. The controller has none, so `addItem` gets no
  arguments, and `new Template({baseObject: undefined})` throws a TypeError
  at js/multiform.js:139 when there is any prepopulated item. That
  exception path is not modelled.
- MultiFormV3.MultiFormInstance.SetupControls,
  MultiFormV3.MultiFormInstance.constructor: the add-button template is
  looked up among the container's direct children only. In the source,
  `$(container).find(...)` (js/multiform.js:288) also finds a template
  nested deeper. On it, `this.container.removeChild(this.addButtonTemplate)`
  (js/multiform.js:291) throws a NotFoundError, after the clone has been
  put in the controls, and construction stops there. The model treats such
  a template as a button elsewhere on the page: it is not cloned and
  nothing is thrown.
- The 0.3 `removeButtonContainer` argument of `Template` is never defined
  where it is passed, so the branches that use it are left out.
- MultiFormV3.MultiFormInstance.Add: `postAddFunc` is never set in 0.3, so
  its call is left out.
- TemplateV3.Template.CreateInstance: only its counter step is modelled.
  The element it builds is discarded and never returned.
- `innerHTML = 'Add'`/`'Remove'`/`'X'` is modelled as one text child.
- The integer coercions of `includes` are left out. `len >>> 0` and
  `fromIndex | 0` are modelled on unbounded integers, as the lengths and
  indices used here always are, and `NaN` values do not occur.
- `$.fn.multiFormTemplate`'s loop is modelled as one
  `MultiFormV3.Registry.Register` call per container. After a call that
  returns `None`, the loop runs no further.
- MultiFormV2.Build: an undefined `prefix` is modelled as the empty string,
  since both are falsy at multiform.js:167.
- MultiFormV2.Build: `postAddFunc` is modelled as a count of its calls.
  `container.container.classList = []` is modelled as the browser performs
  it: the empty string is written to the class attribute.
- MultiFormV3.MultiFormInstance.constructor: the contract states the
  container, the template and the items. The controls' content and the
  remove button are stated on `SetupControls` and `SetupRemoveButton`.
  When construction is aborted, the state of the add button and the
  controls is also stated only there.
- The remove-button queries of 0.3 run after `setupControls` has taken out
  the add-button template. In the source they run before. The two orders
  differ only when the add-button template itself has the remove classes.
- `name` is treated as an attribute on every element. The difference
  between the `name` property and the attribute is left out.
