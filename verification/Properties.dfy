/**
 The property map after construction: the Name, AutomationId and control
 type getters are lazy, so they report the fields as they are when queried.
 */
module Properties {
  import opened Wrappers
  import opened Uia
  import opened AutomationProviders

  /** Reassigning Name, Id and ControlType after construction changes what
      the default getters report; IsKeyboardFocusable stays true. */
  lemma NewGettersAreLazy(s: Store, parent: Option<NodeId>, patterns: seq<PatternId>,
                          name: Option<string>, id: Option<string>, controlType: ControlType)
    requires parent.Some? ==> Contains(s, parent.value)
    ensures var r := New(s, parent, patterns);
      var t := SetControlType(SetAutomationId(SetName(r.store, r.node, name), r.node, id), r.node, controlType);
      && GetPropertyValue(t, r.node, NameProperty) == TextOrNull(name)
      && GetPropertyValue(t, r.node, AutomationIdProperty) == TextOrNull(id)
      && GetPropertyValue(t, r.node, ControlTypeProperty) == Int(controlType.id)
      && GetPropertyValue(t, r.node, LocalizedControlTypeProperty) == Text(controlType.localizedName)
      && GetPropertyValue(t, r.node, IsKeyboardFocusableProperty) == Bool(true)
  {
  }

  /** A value set on one provider is invisible on every other provider. */
  lemma SetPropertyValueIsLocal(s: Store, n: NodeId, m: NodeId, propertyId: PropertyId, v: Value, q: PropertyId)
    requires Contains(s, n) && Contains(s, m) && m != n
    ensures GetPropertyValue(SetPropertyValue(s, n, propertyId, v), m, q) == GetPropertyValue(s, m, q)
  {
  }
}
