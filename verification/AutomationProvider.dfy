/**
 The in-memory provider tree of UIA.Extensions: every `AutomationProvider`
 object becomes a `Node` record in a `Store`, and every method or property
 accessor of the class becomes a function from a store (and the node it is
 called on) to its result or to the updated store.
 */
module AutomationProviders {
  import opened Wrappers
  import opened Uia

  /** A provider is named by its position in the store; object references
      (the parent, the children) are such positions. */
  type NodeId = nat

  /** The objects a property getter can hand back; `Null` is the C# null. */
  datatype Value = Null | Bool(b: bool) | Int(i: int) | Text(s: string)

  /** A stored property getter. `Constant` is the closure built by the
      object overload of SetPropertyValue; the others are the lazy getters the
      constructor installs, which read the provider's fields when called. */
  datatype Getter =
    | Constant(v: Value)
    | ControlTypeIdGetter
    | LocalizedControlTypeGetter
    | NameGetter
    | AutomationIdGetter

  datatype Node = Node(
    parent: Option<NodeId>,
    children: seq<NodeId>,
    runtimeId: int,
    properties: map<PropertyId, Getter>,
    supportedPatterns: seq<PatternId>,
    controlType: ControlType,
    name: Option<string>,
    automationId: Option<string>)

  datatype Store = Store(nodes: seq<Node>)

  /** A newly constructed provider together with the store that now holds it. */
  datatype Created = Created(store: Store, node: NodeId)

  predicate Contains(s: Store, n: NodeId) {
    n < |s.nodes|
  }

  /** Every reference a node holds points at a node of the store. */
  predicate RefersInto(s: Store, node: Node) {
    && (node.parent.Some? ==> Contains(s, node.parent.value))
    && forall j :: 0 <= j < |node.children| ==> Contains(s, node.children[j])
  }

  /** The store-level stand-in for "no dangling references". */
  predicate Valid(s: Store) {
    forall n :: 0 <= n < |s.nodes| ==> RefersInto(s, s.nodes[n])
  }

  /** Only node `n` may differ between `s` and `r`. */
  predicate OnlyNodeChanged(s: Store, r: Store, n: NodeId) {
    && |r.nodes| == |s.nodes|
    && forall m :: 0 <= m < |s.nodes| && m != n ==> r.nodes[m] == s.nodes[m]
  }

  // ---------------------------------------------------------------------
  // Properties
  // ---------------------------------------------------------------------

  function TextOrNull(o: Option<string>): Value {
    match o
    case Some(t) => Text(t)
    case None => Null
  }

  /** Calling a stored getter on the provider as it is now. */
  function Evaluate(g: Getter, node: Node): Value {
    match g
    case Constant(v) => v
    case ControlTypeIdGetter => Int(node.controlType.id)
    case LocalizedControlTypeGetter => Text(node.controlType.localizedName)
    case NameGetter => TextOrNull(node.name)
    case AutomationIdGetter => TextOrNull(node.automationId)
  }

  const DefaultProperties: map<PropertyId, Getter> :=
    map[
      ControlTypeProperty := ControlTypeIdGetter,
      LocalizedControlTypeProperty := LocalizedControlTypeGetter,
      IsKeyboardFocusableProperty := Constant(Bool(true)),
      NameProperty := NameGetter,
      AutomationIdProperty := AutomationIdGetter
    ]

  const DefaultPropertyIds: set<PropertyId> :=
    {ControlTypeProperty, LocalizedControlTypeProperty, IsKeyboardFocusableProperty,
     NameProperty, AutomationIdProperty}

  /** GetPropertyValue: the stored getter's result, or null for an ID that
      has no getter. */
  function GetPropertyValue(s: Store, n: NodeId, propertyId: PropertyId): (r: Value)
    requires Contains(s, n)
    ensures propertyId !in s.nodes[n].properties ==> r == Null
    ensures propertyId in s.nodes[n].properties && s.nodes[n].properties[propertyId].Constant?
            ==> r == s.nodes[n].properties[propertyId].v
    ensures propertyId in s.nodes[n].properties && s.nodes[n].properties[propertyId] == ControlTypeIdGetter
            ==> r == Int(s.nodes[n].controlType.id)
    ensures propertyId in s.nodes[n].properties && s.nodes[n].properties[propertyId] == LocalizedControlTypeGetter
            ==> r == Text(s.nodes[n].controlType.localizedName)
    ensures propertyId in s.nodes[n].properties && s.nodes[n].properties[propertyId] == NameGetter
            ==> r == TextOrNull(s.nodes[n].name)
    ensures propertyId in s.nodes[n].properties && s.nodes[n].properties[propertyId] == AutomationIdGetter
            ==> r == TextOrNull(s.nodes[n].automationId)
  {
    var node := s.nodes[n];
    if propertyId in node.properties then Evaluate(node.properties[propertyId], node) else Null
  }

  /** The getter overload of SetPropertyValue: installs or replaces the getter. */
  function SetPropertyGetter(s: Store, n: NodeId, propertyId: PropertyId, getter: Getter): (r: Store)
    requires Contains(s, n)
    ensures OnlyNodeChanged(s, r, n)
    ensures r.nodes[n].(properties := s.nodes[n].properties) == s.nodes[n]
    ensures r.nodes[n].properties == s.nodes[n].properties[propertyId := getter]
    ensures GetPropertyValue(r, n, propertyId) == Evaluate(getter, s.nodes[n])
    ensures forall q :: q != propertyId ==> GetPropertyValue(r, n, q) == GetPropertyValue(s, n, q)
    ensures Valid(s) ==> Valid(r)
  {
    var node := s.nodes[n];
    Store(s.nodes[n := node.(properties := node.properties[propertyId := getter])])
  }

  /** The object overload of SetPropertyValue: the stored getter returns `v`. */
  function SetPropertyValue(s: Store, n: NodeId, propertyId: PropertyId, v: Value): (r: Store)
    requires Contains(s, n)
    ensures OnlyNodeChanged(s, r, n)
    ensures r.nodes[n].(properties := s.nodes[n].properties) == s.nodes[n]
    ensures r.nodes[n].properties == s.nodes[n].properties[propertyId := Constant(v)]
    ensures GetPropertyValue(r, n, propertyId) == v
    ensures forall q :: q != propertyId ==> GetPropertyValue(r, n, q) == GetPropertyValue(s, n, q)
    ensures Valid(s) ==> Valid(r)
  {
    SetPropertyGetter(s, n, propertyId, Constant(v))
  }

  // ---------------------------------------------------------------------
  // Construction and fields
  // ---------------------------------------------------------------------

  /** The three constructors. `parent` is the parent argument (None when the
      constructor without one is used or null is passed) and `patterns` the
      IDs of the pattern arguments in order, on the assumption that the
      `ForEach` extension adds each one once, in order. The parent's child
      list is left alone: only AddChild appends to it. */
  function New(s: Store, parent: Option<NodeId>, patterns: seq<PatternId>): (r: Created)
    requires parent.Some? ==> Contains(s, parent.value)
    ensures |r.store.nodes| == |s.nodes| + 1 && !Contains(s, r.node) && Contains(r.store, r.node)
    ensures forall m :: 0 <= m < |s.nodes| ==> r.store.nodes[m] == s.nodes[m]
    ensures Valid(s) ==> Valid(r.store)
    ensures r.store.nodes[r.node].parent == parent
    ensures r.store.nodes[r.node].children == []
    ensures r.store.nodes[r.node].runtimeId == 0
    ensures GetPropertyValue(r.store, r.node, IsKeyboardFocusableProperty) == Bool(true)
    ensures GetPropertyValue(r.store, r.node, ControlTypeProperty) == Int(Custom.id)
    ensures GetPropertyValue(r.store, r.node, LocalizedControlTypeProperty) == Text(Custom.localizedName)
    ensures GetPropertyValue(r.store, r.node, NameProperty) == Null
    ensures GetPropertyValue(r.store, r.node, AutomationIdProperty) == Null
    ensures forall q :: q !in DefaultPropertyIds ==> GetPropertyValue(r.store, r.node, q) == Null
    ensures forall pat :: GetPatternProvider(r.store, r.node, pat) == Some(r.node) <==> pat in patterns
    ensures forall pat :: GetPatternProvider(r.store, r.node, pat) == None <==> pat !in patterns
  {
    var node := Node(parent, [], 0, DefaultProperties, patterns, Custom, None, None);
    Created(Store(s.nodes + [node]), |s.nodes|)
  }

  function SetControlType(s: Store, n: NodeId, controlType: ControlType): (r: Store)
    requires Contains(s, n)
    ensures OnlyNodeChanged(s, r, n)
    ensures r.nodes[n].(controlType := s.nodes[n].controlType) == s.nodes[n]
    ensures r.nodes[n].controlType == controlType
    ensures ControlTypeProperty in s.nodes[n].properties && s.nodes[n].properties[ControlTypeProperty] == ControlTypeIdGetter
            ==> GetPropertyValue(r, n, ControlTypeProperty) == Int(controlType.id)
    ensures LocalizedControlTypeProperty in s.nodes[n].properties
            && s.nodes[n].properties[LocalizedControlTypeProperty] == LocalizedControlTypeGetter
            ==> GetPropertyValue(r, n, LocalizedControlTypeProperty) == Text(controlType.localizedName)
    ensures Valid(s) ==> Valid(r)
  {
    Store(s.nodes[n := s.nodes[n].(controlType := controlType)])
  }

  /** The Name setter; `None` is null. */
  function SetName(s: Store, n: NodeId, name: Option<string>): (r: Store)
    requires Contains(s, n)
    ensures OnlyNodeChanged(s, r, n)
    ensures r.nodes[n].(name := s.nodes[n].name) == s.nodes[n]
    ensures r.nodes[n].name == name
    ensures NameProperty in s.nodes[n].properties && s.nodes[n].properties[NameProperty] == NameGetter
            ==> GetPropertyValue(r, n, NameProperty) == TextOrNull(name)
    ensures Valid(s) ==> Valid(r)
  {
    Store(s.nodes[n := s.nodes[n].(name := name)])
  }

  /** The Id setter, whose value the AutomationId property reports. */
  function SetAutomationId(s: Store, n: NodeId, id: Option<string>): (r: Store)
    requires Contains(s, n)
    ensures OnlyNodeChanged(s, r, n)
    ensures r.nodes[n].(automationId := s.nodes[n].automationId) == s.nodes[n]
    ensures r.nodes[n].automationId == id
    ensures AutomationIdProperty in s.nodes[n].properties && s.nodes[n].properties[AutomationIdProperty] == AutomationIdGetter
            ==> GetPropertyValue(r, n, AutomationIdProperty) == TextOrNull(id)
    ensures Valid(s) ==> Valid(r)
  {
    Store(s.nodes[n := s.nodes[n].(automationId := id)])
  }

  /** The public RuntimeId setter. */
  function SetRuntimeId(s: Store, n: NodeId, runtimeId: int): (r: Store)
    requires Contains(s, n)
    ensures OnlyNodeChanged(s, r, n)
    ensures r.nodes[n].(runtimeId := s.nodes[n].runtimeId) == s.nodes[n]
    ensures r.nodes[n].runtimeId == runtimeId
    ensures Valid(s) ==> Valid(r)
  {
    Store(s.nodes[n := s.nodes[n].(runtimeId := runtimeId)])
  }

  /** The public Parent setter. It touches neither child list. */
  function SetParent(s: Store, n: NodeId, parent: Option<NodeId>): (r: Store)
    requires Contains(s, n)
    requires parent.Some? ==> Contains(s, parent.value)
    ensures OnlyNodeChanged(s, r, n)
    ensures r.nodes[n].(parent := s.nodes[n].parent) == s.nodes[n]
    ensures r.nodes[n].parent == parent
    ensures Valid(s) ==> Valid(r)
  {
    Store(s.nodes[n := s.nodes[n].(parent := parent)])
  }

  /** GetPatternProvider: the provider itself when it was constructed with
      the pattern, otherwise null. */
  function GetPatternProvider(s: Store, n: NodeId, patternId: PatternId): (r: Option<NodeId>)
    requires Contains(s, n)
    ensures r == Some(n) <==> patternId in s.nodes[n].supportedPatterns
    ensures r.None? <==> patternId !in s.nodes[n].supportedPatterns
  {
    if patternId in s.nodes[n].supportedPatterns then Some(n) else None
  }

  // ---------------------------------------------------------------------
  // Tree structure
  // ---------------------------------------------------------------------

  /** AddChild(parent, child): the child's Parent and RuntimeId are set
      first, then the child is appended to the parent's list. The two may be
      the same provider, and the child's previous parent keeps listing it. */
  function AddChild(s: Store, p: NodeId, c: NodeId): (r: Store)
    requires Contains(s, p) && Contains(s, c)
    ensures |r.nodes| == |s.nodes|
    ensures r.nodes[c].parent == Some(p)
    ensures r.nodes[c].runtimeId == |s.nodes[p].children|
    ensures r.nodes[p].children == s.nodes[p].children + [c]
    ensures forall m :: 0 <= m < |s.nodes| && m != p && m != c ==> r.nodes[m] == s.nodes[m]
    ensures c != p ==> r.nodes[p].(children := s.nodes[p].children) == s.nodes[p]
    ensures c != p ==> r.nodes[c].(parent := s.nodes[c].parent, runtimeId := s.nodes[c].runtimeId) == s.nodes[c]
    ensures c == p ==> r.nodes[c] == s.nodes[c].(parent := Some(p), runtimeId := |s.nodes[p].children|,
                                                 children := s.nodes[p].children + [c])
    ensures Valid(s) ==> Valid(r)
  {
    var index := |s.nodes[p].children|;
    var nodes := s.nodes[c := s.nodes[c].(parent := Some(p), runtimeId := index)];
    Store(nodes[p := nodes[p].(children := nodes[p].children + [c])])
  }

  /** `n` reaches a provider without a parent in exactly `d` Parent steps,
      every provider on the way being in the store. */
  predicate ReachesRootIn(s: Store, n: NodeId, d: nat)
    decreases d
  {
    && Contains(s, n)
    && match s.nodes[n].parent
       case None => d == 0
       case Some(p) => d > 0 && ReachesRootIn(s, p, d - 1)
  }

  /** The parent chain of `n` is finite: following Parent ends at a root. */
  ghost predicate Rooted(s: Store, n: NodeId) {
    exists d: nat :: ReachesRootIn(s, n, d)
  }

  /** Every provider of the store has a finite parent chain. */
  ghost predicate Acyclic(s: Store) {
    forall n :: 0 <= n < |s.nodes| ==> Rooted(s, n)
  }

  ghost function Depth(s: Store, n: NodeId): (d: nat)
    requires Rooted(s, n)
    ensures ReachesRootIn(s, n, d)
  {
    var d: nat :| ReachesRootIn(s, n, d);
    d
  }

  lemma {:induction false} DepthUnique(s: Store, n: NodeId, d1: nat, d2: nat)
    requires ReachesRootIn(s, n, d1) && ReachesRootIn(s, n, d2)
    ensures d1 == d2
    decreases d1
  {
    match s.nodes[n].parent
    case None =>
    case Some(p) => DepthUnique(s, p, d1 - 1, d2 - 1);
  }

  /** The parent of a rooted provider is rooted one level higher. */
  lemma ParentDepth(s: Store, n: NodeId)
    requires Rooted(s, n) && s.nodes[n].parent.Some?
    ensures Rooted(s, s.nodes[n].parent.value)
    ensures Depth(s, s.nodes[n].parent.value) == Depth(s, n) - 1
  {
    var p := s.nodes[n].parent.value;
    var d := Depth(s, n);
    assert ReachesRootIn(s, p, d - 1);
    DepthUnique(s, p, Depth(s, p), d - 1);
  }

  /** The provider `k` Parent steps above `n`, stopping at a root. */
  function Up(s: Store, n: NodeId, k: nat): NodeId
    decreases k
  {
    if k == 0 || !Contains(s, n) then n
    else match s.nodes[n].parent
      case None => n
      case Some(p) => Up(s, p, k - 1)
  }

  /** FragmentRoot: the top of the parent chain. The `?? this` fallback of
      the source never fires, since this accessor never yields null. */
  function FragmentRoot(s: Store, n: NodeId): (r: NodeId)
    requires Rooted(s, n)
    ensures Contains(s, r) && s.nodes[r].parent.None?
    ensures r == Up(s, n, Depth(s, n))
    decreases Depth(s, n)
  {
    match s.nodes[n].parent
    case None => n
    case Some(p) =>
      ParentDepth(s, n);
      FragmentRoot(s, p)
  }

  // ---------------------------------------------------------------------
  // Runtime IDs
  // ---------------------------------------------------------------------

  /** HasWindowHandle: the NativeWindowHandle property yields non-null. */
  predicate HasWindowHandle(s: Store, n: NodeId)
    requires Contains(s, n)
    ensures HasWindowHandle(s, n) ==> NativeWindowHandleProperty in s.nodes[n].properties
    ensures NativeWindowHandleProperty in s.nodes[n].properties
            && s.nodes[n].properties[NativeWindowHandleProperty].Constant? ==>
              (HasWindowHandle(s, n) <==> s.nodes[n].properties[NativeWindowHandleProperty].v != Null)
  {
    GetPropertyValue(s, n, NativeWindowHandleProperty) != Null
  }

  /** What GetRuntimeId hands back: an array, null, or the
      ArgumentNullException that Concat throws on a null sequence. */
  datatype RuntimeIdResult = Returned(ids: seq<int>) | ReturnedNull | ThrewArgumentNull

  /** GetRuntimeId stops after exactly `d` Parent steps, at the first
      provider on the chain that has a window handle or has no parent. */
  predicate StopsIn(s: Store, n: NodeId, d: nat)
    decreases d
  {
    && Contains(s, n)
    && (if HasWindowHandle(s, n) then d == 0
        else match s.nodes[n].parent
          case None => d == 0
          case Some(p) => d > 0 && StopsIn(s, p, d - 1))
  }

  /** The recursion of GetRuntimeId ends: walking up from `n` meets a
      provider with a window handle or a root. A finite chain is the
      common case; a cyclic chain that holds a handle also stops.
      `RootedStops` shows that the first disjunct implies the second. It
      is kept so that a lemma whose requires give `Rooted` can name
      GetRuntimeId in its ensures without a separate step. */
  ghost predicate RuntimeIdHalts(s: Store, n: NodeId) {
    Rooted(s, n) || exists d: nat :: StopsIn(s, n, d)
  }

  lemma {:induction false} RootedStops(s: Store, n: NodeId, d: nat)
    requires ReachesRootIn(s, n, d)
    ensures exists e: nat :: StopsIn(s, n, e)
    decreases d
  {
    if HasWindowHandle(s, n) {
      assert StopsIn(s, n, 0);
    } else {
      match s.nodes[n].parent
      case None =>
        assert StopsIn(s, n, 0);
      case Some(p) =>
        RootedStops(s, p, d - 1);
        var e: nat :| StopsIn(s, p, e);
        assert StopsIn(s, n, e + 1);
    }
  }

  lemma HaltsStops(s: Store, n: NodeId)
    requires RuntimeIdHalts(s, n)
    ensures exists e: nat :: StopsIn(s, n, e)
  {
    if Rooted(s, n) {
      RootedStops(s, n, Depth(s, n));
    }
  }

  ghost function StopDepth(s: Store, n: NodeId): (d: nat)
    requires RuntimeIdHalts(s, n)
    ensures StopsIn(s, n, d)
  {
    HaltsStops(s, n);
    var d: nat :| StopsIn(s, n, d);
    d
  }

  lemma {:induction false} StopDepthUnique(s: Store, n: NodeId, d1: nat, d2: nat)
    requires StopsIn(s, n, d1) && StopsIn(s, n, d2)
    ensures d1 == d2
    decreases d1
  {
    if !HasWindowHandle(s, n) {
      match s.nodes[n].parent
      case None =>
      case Some(p) => StopDepthUnique(s, p, d1 - 1, d2 - 1);
    }
  }

  /** Past a provider without a handle, the recursion goes on one step
      shorter from its parent. */
  lemma StopParent(s: Store, n: NodeId)
    requires Contains(s, n) && RuntimeIdHalts(s, n) && !HasWindowHandle(s, n)
    ensures s.nodes[n].parent.Some? ==>
      && Contains(s, s.nodes[n].parent.value)
      && RuntimeIdHalts(s, s.nodes[n].parent.value)
      && StopDepth(s, s.nodes[n].parent.value) == StopDepth(s, n) - 1
  {
    if s.nodes[n].parent.Some? {
      var p := s.nodes[n].parent.value;
      var d := StopDepth(s, n);
      assert StopsIn(s, p, d - 1);
      StopDepthUnique(s, p, StopDepth(s, p), d - 1);
    }
  }

  /** A provider whose parent is rooted is rooted one level lower. */
  lemma ChildRooted(s: Store, n: NodeId)
    requires Contains(s, n) && s.nodes[n].parent.Some?
    ensures Rooted(s, s.nodes[n].parent.value) ==>
      Rooted(s, n) && Depth(s, n) == Depth(s, s.nodes[n].parent.value) + 1
  {
    var p := s.nodes[n].parent.value;
    if Rooted(s, p) {
      assert ReachesRootIn(s, n, Depth(s, p) + 1);
      DepthUnique(s, n, Depth(s, n), Depth(s, p) + 1);
    }
  }

  function GetRuntimeId(s: Store, n: NodeId): (r: RuntimeIdResult)
    requires Contains(s, n) && RuntimeIdHalts(s, n)
    ensures r.ReturnedNull? <==> HasWindowHandle(s, n)
    ensures r.Returned? ==> Rooted(s, n) && |r.ids| == Depth(s, n) + 2 && r.ids[0] == AppendRuntimeId
    ensures r.Returned? ==> r.ids[|r.ids| - 1] == s.nodes[n].runtimeId
    decreases StopDepth(s, n), 1
  {
    if HasWindowHandle(s, n) then ReturnedNull
    else
      StopParent(s, n);
      match ParentRuntimeIdOrDefault(s, n)
      case Returned(prefix) => Returned(prefix + [s.nodes[n].runtimeId])
      case ReturnedNull => ThrewArgumentNull
      case ThrewArgumentNull => ThrewArgumentNull
  }

  /** Callable on a root, or when the parent's GetRuntimeId terminates. */
  function ParentRuntimeIdOrDefault(s: Store, n: NodeId): (r: RuntimeIdResult)
    requires Contains(s, n)
    requires s.nodes[n].parent.Some? ==>
      Contains(s, s.nodes[n].parent.value) && RuntimeIdHalts(s, s.nodes[n].parent.value)
    ensures r.Returned? ==> Rooted(s, n) && |r.ids| == Depth(s, n) + 1 && r.ids[0] == AppendRuntimeId
    ensures s.nodes[n].parent.None? ==> r == Returned([AppendRuntimeId])
    ensures s.nodes[n].parent.Some? ==> (r.ReturnedNull? <==> HasWindowHandle(s, s.nodes[n].parent.value))
    decreases if s.nodes[n].parent.Some? then StopDepth(s, s.nodes[n].parent.value) + 1 else 0, 0
  {
    match s.nodes[n].parent
    case None =>
      assert ReachesRootIn(s, n, 0);
      Returned([AppendRuntimeId])
    case Some(p) =>
      ChildRooted(s, n);
      GetRuntimeId(s, p)
  }

  // ---------------------------------------------------------------------
  // Navigation
  // ---------------------------------------------------------------------

  /** The `After` and `Before` list extensions the sibling accessors call.
      Their code is not part of this model, so they are parameters. */
  datatype ListExtensions = ListExtensions(
    after: (seq<NodeId>, NodeId) -> Option<NodeId>,
    before: (seq<NodeId>, NodeId) -> Option<NodeId>)

  function FirstChild(s: Store, n: NodeId): (r: Option<NodeId>)
    requires Contains(s, n)
    ensures r.None? <==> |s.nodes[n].children| == 0
    ensures r.Some? ==> r.value == s.nodes[n].children[0]
  {
    var children := s.nodes[n].children;
    if |children| == 0 then None else Some(children[0])
  }

  function LastChild(s: Store, n: NodeId): (r: Option<NodeId>)
    requires Contains(s, n)
    ensures r.None? <==> |s.nodes[n].children| == 0
    ensures r.Some? ==> r.value == s.nodes[n].children[|s.nodes[n].children| - 1]
  {
    var children := s.nodes[n].children;
    if |children| == 0 then None else Some(children[|children| - 1])
  }

  /** The sibling accessors dereference Parent, so a root cannot call them. */
  predicate HasParentInStore(s: Store, n: NodeId) {
    Contains(s, n) && s.nodes[n].parent.Some? && Contains(s, s.nodes[n].parent.value)
  }

  function NextSiblingOf(s: Store, n: NodeId, ext: ListExtensions): (r: Option<NodeId>)
    requires HasParentInStore(s, n)
    ensures r == ext.after(s.nodes[s.nodes[n].parent.value].children, n)
  {
    ext.after(s.nodes[s.nodes[n].parent.value].children, n)
  }

  function PreviousSiblingOf(s: Store, n: NodeId, ext: ListExtensions): (r: Option<NodeId>)
    requires HasParentInStore(s, n)
    ensures r == ext.before(s.nodes[s.nodes[n].parent.value].children, n)
  {
    ext.before(s.nodes[s.nodes[n].parent.value].children, n)
  }

  function Navigate(s: Store, n: NodeId, direction: NavigateDirection, ext: ListExtensions): (r: Option<NodeId>)
    requires Contains(s, n)
    requires direction.NextSibling? || direction.PreviousSibling? ==> HasParentInStore(s, n)
    ensures direction.Unlisted? ==> r.None?
    ensures direction.FirstChild? || direction.LastChild? ==>
              (r.None? <==> |s.nodes[n].children| == 0) && (r.Some? ==> r.value in s.nodes[n].children)
    ensures direction.FirstChild? && r.Some? ==> r.value == s.nodes[n].children[0]
    ensures direction.LastChild? && r.Some? ==> r.value == s.nodes[n].children[|s.nodes[n].children| - 1]
    ensures direction.Parent? ==> r == s.nodes[n].parent
    ensures direction.NextSibling? ==> r == NextSiblingOf(s, n, ext)
    ensures direction.PreviousSibling? ==> r == PreviousSiblingOf(s, n, ext)
    ensures Valid(s) && r.Some? && !(direction.NextSibling? || direction.PreviousSibling?) ==> Contains(s, r.value)
  {
    match direction
    case FirstChild => FirstChild(s, n)
    case LastChild => LastChild(s, n)
    case NextSibling => NextSiblingOf(s, n, ext)
    case PreviousSibling => PreviousSiblingOf(s, n, ext)
    case Parent => s.nodes[n].parent
    case Unlisted(_) => None
  }
}
