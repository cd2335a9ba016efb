# AutomationProvider tree, modelled in Dafny

UIA.Extensions exposes Windows Forms controls to Windows UI Automation
through `AutomationProvider` objects. Each provider holds three things:

- a property map from UIA property IDs to value getters;
- the list of control patterns it supports;
- its place in a parent-pointer tree, with `Parent`, `Children` and an
  integer `RuntimeId`.

Automation clients navigate that tree. They ask a provider for its fragment
root and for its runtime ID, which is the path of `RuntimeId` values from
the root down to the provider.

This project models the base class as pure state transformers over a store:

- Each provider object is a `Node` record in a `Store`, and its index in the
  store stands for the object reference.
- `Parent` is an `Option` index, and `Children` is a sequence of indices.
- Each accessor or method of the class is a function from the store to its
  result or to the updated store.

The files are:

- `Wrappers.dfy`: `Option`, which stands for a nullable reference.
- `Uia.dfy`: the UI Automation identifiers the class uses (property IDs,
  `AppendRuntimeId`, the `Custom` control type, `NavigateDirection`). These
  are the operating system's documented values. The proofs only need the
  property IDs to be pairwise distinct.
- `AutomationProvider.dfy`: the data model and the operations of the class.
  This covers the constructors, the property map, the pattern lookup, the
  field setters, `AddChild`, `FragmentRoot`, `GetRuntimeId`
  (`HasWindowHandle`, `ParentRuntimeIdOrDefault`), `Navigate` and the child
  and sibling accessors.
- `Ancestry.dfy`: facts about parent chains. These are where `FragmentRoot`
  lands, which operations keep every chain finite, and what `AddChild` does
  to the fragment a child belongs to.
- `RuntimeIds.dfy`: what `GetRuntimeId` computes. This is an independent
  path definition, the three possible outcomes, and how `AddChild` and a
  window handle affect the result.
- `ChildLists.dfy`: the invariant that `AddChild` gives each child its list
  position as `RuntimeId`, re-parenting, construction with a parent, and
  navigation.
- `Properties.dfy`: the lazy default getters.

Some modelling choices need explaining:

- **Stored getters.** A getter is a `Getter` value. `Constant(v)` is the
  closure `() => propertyValue` that the object overload of
  `SetPropertyValue` builds. The other four getters are the lazy ones the
  constructor installs, and they read the node's fields when they are
  called.
- **Where the recursion stops.** `FragmentRoot` recurses up the parent
  chain unconditionally, so it requires `Rooted`: following `Parent`
  reaches a provider without a parent. On a cycle the source would
  overflow its stack. `AddChildToItselfCycles` shows that the public
  operations can build such a cycle.
- **`GetRuntimeId` on a cycle.** `GetRuntimeId` returns null before it
  reads `Parent` when the provider has a window handle. So it requires
  only `RuntimeIdHalts`: walking up meets a provider with a window handle
  or a root. `StopsIn` counts the steps to that provider, and every
  finite chain satisfies it. `HandleStopsCycle` shows a cyclic chain on
  which the call still stops.
- **The three results of `GetRuntimeId`.** It returns one of:
  - `Returned(ids)`: an array;
  - `ReturnedNull`: the provider has a window handle;
  - `ThrewArgumentNull`: a proper ancestor returned null, and `Concat`
    throws when given a null sequence.
- **Pattern IDs.** The constructor adds the pattern IDs through a `ForEach`
  extension that is not part of this model. `New` assumes that it adds
  every ID once, in array order.
- **Sibling directions.** `Navigate` in these directions dereferences
  `Parent` unconditionally, so it requires a parent. The `After` and
  `Before` list extensions it calls are not part of this model, so they
  are a `ListExtensions` parameter. `ElementAfter` and `ElementBefore` in
  `ChildLists.dfy` are an explicitly assumed reading of them: the element
  right after or right before the first occurrence, or null. Only the
  lemmas whose names mention siblings rely on that assumption.

## Model

| member | source | states |
|---|---|---|
| `AutomationProviders.SetPropertyGetter` | src/UIA.Extensions/AutomationProviders/AutomationProvider.cs:85-88 | after installing a getter, the property map is the old map with that one entry set, so every other stored getter, lazy ones included, stays in place; GetPropertyValue for that ID returns the getter's result on the provider, and every other ID returns what it returned before; no other provider and no other field changes; store validity is kept |
| `AutomationProviders.GetPropertyValue` | src/UIA.Extensions/AutomationProviders/AutomationProvider.cs:72-78 | an ID with no stored getter gives null; an ID whose stored getter is a constant gives that constant; the four lazy getters give the provider's current control type ID, localized control type name, Name and Id, with a null field giving null |
| `AutomationProviders.SetPropertyValue` | src/UIA.Extensions/AutomationProviders/AutomationProvider.cs:80-83 | after SetPropertyValue(id, v), the property map is the old map with that entry set to a constant getter for v, so GetPropertyValue(id) returns exactly v (null included) and all other getters stay in place; no other field and no other provider changes |
| `AutomationProviders.New` | src/UIA.Extensions/AutomationProviders/AutomationProvider.cs:17-42 | the three constructors: a fresh provider with the given Parent, no children and RuntimeId 0; existing providers, including the parent and its child list, are untouched; IsKeyboardFocusable is true, ControlType is Custom's ID, LocalizedControlType is Custom's name, Name and AutomationId are null, and every ID outside the five defaults returns null; GetPatternProvider returns the provider itself exactly for the pattern IDs passed in and null for every other ID |
| `AutomationProviders.SetControlType` | src/UIA.Extensions/AutomationProviders/AutomationProvider.cs:44 | the control type becomes the given one and nothing else changes; while the default getters are installed, the ControlType and LocalizedControlType properties report the new type |
| `AutomationProviders.SetName` | src/UIA.Extensions/AutomationProviders/AutomationProvider.cs:46 | Name becomes the given value and nothing else changes; while the default Name getter is installed, the Name property reports the new value (null when it is null) |
| `AutomationProviders.SetAutomationId` | src/UIA.Extensions/AutomationProviders/AutomationProvider.cs:45 | Id becomes the given value and nothing else changes; while the default getter is installed, the AutomationId property reports the new value |
| `AutomationProviders.SetRuntimeId` | src/UIA.Extensions/AutomationProviders/AutomationProvider.cs:100 | the RuntimeId setter changes that field of that provider and nothing else |
| `AutomationProviders.SetParent` | src/UIA.Extensions/AutomationProviders/AutomationProvider.cs:154 | the Parent setter changes that field only; no child list is touched |
| `AutomationProviders.AddChild` | src/UIA.Extensions/AutomationProviders/AutomationProvider.cs:163-168 | the child's Parent becomes this provider and its RuntimeId the previous child count; the list becomes the old list with the child appended; every other provider, the previous parent included, is unchanged; a provider added to itself gets all three updates |
| `AutomationProviders.FragmentRoot` | src/UIA.Extensions/AutomationProviders/AutomationProvider.cs:67-70 | on a finite parent chain, the result has no parent and is the provider Depth steps up the chain; a provider without a parent is its own root |
| `AutomationProviders.HasWindowHandle` | src/UIA.Extensions/AutomationProviders/AutomationProvider.cs:180-183 | true only when the NativeWindowHandle property has a stored getter, so a provider on which that property was never set has no handle; when that getter is a constant, true exactly when the constant is non-null |
| `AutomationProviders.GetRuntimeId` | src/UIA.Extensions/AutomationProviders/AutomationProvider.cs:102-108 | callable whenever walking up meets a window handle or a root, cyclic chains included; null exactly when the NativeWindowHandle property is non-null; an array is returned only on a finite chain, and it has length depth + 2, starts with AppendRuntimeId and ends with the provider's own RuntimeId |
| `AutomationProviders.ParentRuntimeIdOrDefault` | src/UIA.Extensions/AutomationProviders/AutomationProvider.cs:185-188 | at a root, the one-element sequence holding AppendRuntimeId; otherwise the parent's result, which is null exactly when the parent has a handle, and which as an array has length depth + 1 and starts with AppendRuntimeId |
| `AutomationProviders.GetPatternProvider` | src/UIA.Extensions/AutomationProviders/AutomationProvider.cs:90-93 | the provider itself exactly when the ID is among its supported patterns, and null exactly when it is not |
| `AutomationProviders.FirstChild` | src/UIA.Extensions/AutomationProviders/AutomationProvider.cs:138-141 | null exactly when there are no children; otherwise the first child |
| `AutomationProviders.LastChild` | src/UIA.Extensions/AutomationProviders/AutomationProvider.cs:133-136 | null exactly when there are no children; otherwise the last child |
| `AutomationProviders.NextSiblingOf` | src/UIA.Extensions/AutomationProviders/AutomationProvider.cs:143-146 | the result of `After` on the parent's child list and this provider; callable only with a parent |
| `AutomationProviders.PreviousSiblingOf` | src/UIA.Extensions/AutomationProviders/AutomationProvider.cs:148-151 | the result of `Before` on the parent's child list and this provider; callable only with a parent |
| `AutomationProviders.Navigate` | src/UIA.Extensions/AutomationProviders/AutomationProvider.cs:114-131 | an unlisted direction gives null; FirstChild and LastChild give null exactly when there are no children, and otherwise the first or the last child; Parent gives Parent; the sibling directions give the NextSibling and PreviousSibling results and require a parent; in a valid store every non-sibling result is a provider of the store |
| `Ancestry.FragmentRootIsTopmost` | src/UIA.Extensions/AutomationProviders/AutomationProvider.cs:67-70 | any parentless provider reached by walking up from a provider is its fragment root, and the fragment root lies on that provider's chain |
| `Ancestry.NewKeepsAcyclic` | src/UIA.Extensions/AutomationProviders/AutomationProvider.cs:38-42 | construction keeps every chain finite and every fragment root the same; the new provider's fragment root is its parent's, or itself without a parent |
| `Ancestry.AddChildKeepsRooted` | src/UIA.Extensions/AutomationProviders/AutomationProvider.cs:163-168 | if the child is neither the parent nor one of its ancestors, every finite chain stays finite; providers whose chain went through the child now have the parent's fragment root, and all others keep theirs |
| `Ancestry.AddChildKeepsAcyclic` | src/UIA.Extensions/AutomationProviders/AutomationProvider.cs:163-168 | under the same condition, an acyclic store stays acyclic and the child's fragment root becomes the parent's |
| `Ancestry.AddChildToItselfCycles` | src/UIA.Extensions/AutomationProviders/AutomationProvider.cs:163-168 | adding a provider as its own child leaves it with no finite parent chain, so FragmentRoot cannot be evaluated on it |
| `RuntimeIds.RuntimeIdIsIndexPath` | src/UIA.Extensions/AutomationProviders/AutomationProvider.cs:102-108 | with no window handle anywhere on the chain, the result is the array AppendRuntimeId followed by the RuntimeIds of the root, then each ancestor in turn, then the provider |
| `RuntimeIds.RuntimeIdOutcome` | src/UIA.Extensions/AutomationProviders/AutomationProvider.cs:102-108 | an array is returned if and only if the chain has no window handle; null if and only if the provider has one; Concat throws if and only if the provider has none and some proper ancestor has one |
| `RuntimeIds.HandleStopsCycle` | src/UIA.Extensions/AutomationProviders/AutomationProvider.cs:102-108 | a provider added as its own child and then given a window handle has no finite chain, yet GetRuntimeId returns null for it; for a child of it without a handle, Concat throws |
| `RuntimeIds.WindowHandleBreaksChildren` | src/UIA.Extensions/AutomationProviders/AutomationProvider.cs:180-188 | setting a non-null NativeWindowHandle on a provider makes its GetRuntimeId null and makes a child without a handle of its own throw |
| `RuntimeIds.AddChildRuntimeId` | src/UIA.Extensions/AutomationProviders/AutomationProvider.cs:163-168 | after AddChild (child not on the parent's chain), the parent's runtime ID is unchanged and the child's is the parent's array followed by its list position; the result is null if the child has a handle, and Concat throws if the parent has no array |
| `ChildLists.AddChildKeepsIndexing` | src/UIA.Extensions/AutomationProviders/AutomationProvider.cs:163-168 | a list whose children name it as Parent and carry their positions as RuntimeId keeps that property through AddChild, unless the child was already in it |
| `ChildLists.AddChildKeepsIndexed` | src/UIA.Extensions/AutomationProviders/AutomationProvider.cs:163-168 | if every list is indexed and the child is in no list yet, every list stays indexed, so children added only by AddChild carry RuntimeIds 0..n-1 in list order |
| `ChildLists.NewKeepsIndexed` | src/UIA.Extensions/AutomationProviders/AutomationProvider.cs:38-42 | construction, with or without a parent, keeps every list indexed and puts the new provider in no list |
| `ChildLists.NewWithParentIsUnlisted` | src/UIA.Extensions/AutomationProviders/AutomationProvider.cs:38-42 | a provider constructed with a parent navigates to it as Parent but is not in its list, and the parent's first and last child do not change |
| `ChildLists.AddChildLeavesPreviousParent` | src/UIA.Extensions/AutomationProviders/AutomationProvider.cs:163-168 | re-parenting does not remove the child from its previous parent's list, which then holds a child whose Parent is another provider |
| `ChildLists.AddChildNavigation` | src/UIA.Extensions/AutomationProviders/AutomationProvider.cs:114-141 | right after AddChild, the parent's LastChild is the child and the child's Parent is the parent; FirstChild is the child if the list was empty and is unchanged otherwise |
| `ChildLists.SiblingNavigation` | src/UIA.Extensions/AutomationProviders/AutomationProvider.cs:143-151 | under the stated After/Before assumption, in an indexed list NextSibling of child i is child i + 1 (null for the last) and PreviousSibling is child i - 1 (null for the first) |
| `ChildLists.NextThenPreviousSibling` | src/UIA.Extensions/AutomationProviders/AutomationProvider.cs:143-151 | under the same assumption, PreviousSibling undoes NextSibling, and both siblings share a Parent |
| `Properties.NewGettersAreLazy` | src/UIA.Extensions/AutomationProviders/AutomationProvider.cs:17-30 | after construction, reassigning Name, Id and ControlType changes what the Name, AutomationId, ControlType and LocalizedControlType properties report; IsKeyboardFocusable stays true |
| `Properties.SetPropertyValueIsLocal` | src/UIA.Extensions/AutomationProviders/AutomationProvider.cs:80-83 | a value set on one provider's map does not change any property of another provider |

## Left out

- COM visibility, the `ProviderOptions` flag constant, `HostRawElementProvider`, `GetEmbeddedFragmentRoots`, `SetFocus`, `GetFocus` and `ElementProviderFromPoint`: interop stubs that return constants or null; the last also takes floating-point coordinates.
- `BoundingRectangle`: a floating-point rectangle with no logic.
- The library types `ControlType`, `AutomationPattern` and `AutomationElementIdentifiers`: reduced to integer IDs and to the two control-type members the getters read.
- Caller-supplied getter closures of arbitrary code: a stored getter is a constant or one of the four field-reading getters, and a getter that throws is not modelled.
- New: the pattern clauses assume that the `ForEach` extension, which is not part of this model, adds every pattern ID once and in array order.
- A null pattern array, a null element of the pattern array (reading its `Id` would throw), and a null `ControlType` assigned before its getter runs are not modelled.
- `Children` hands out the live list, and a caller can add, insert, remove or clear entries without going through `AddChild`. The store has no such operation. Such edits can break the index invariant of `ChildLists.IndexedChildren` and change what `Navigate` returns, and the model says nothing about them.
- `AddChild(null)` throws a NullReferenceException when it sets the child's Parent. A `NodeId` always names a provider, so that case is not modelled.
- NextSiblingOf: stated only through the `ListExtensions` parameter, because the `After` extension is not part of this model.
- PreviousSiblingOf: stated only through the `ListExtensions` parameter, because the `Before` extension is not part of this model.
- Navigate: sibling results are stated only through the `ListExtensions` parameter, because the `After`/`Before` extensions are not part of this model; the sibling lemmas use the assumed `ElementAfter`/`ElementBefore` reading and say so.
- FragmentRoot: requires a finite parent chain; on a cyclic chain the source recurses without end, and that divergence is not modelled.
- GetRuntimeId: requires that walking up meets a window handle or a root. This is exactly the condition under which the source's recursion stops; on a cycle without a handle the source overflows its stack, and that divergence is not modelled.
- `RuntimeId` and `Children.Count` are 32-bit in the source; the model uses unbounded integers, since a list of more than 2^31 children cannot occur in practice.
- Virtual overrides by subclasses: only the base-class behaviour is modelled.
- src/UIA.Fluent/AutomationConfigurer.cs: Windows Forms wiring and a one-line Name setter, which `SetName` already covers.
