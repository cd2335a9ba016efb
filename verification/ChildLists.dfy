/**
 Child lists: the index-based RuntimeId invariant AddChild maintains, what
 it does to a previous parent, construction with a parent, navigation over
 the lists, and sibling navigation under a stated assumption about the
 `After`/`Before` list extensions.
 */
module ChildLists {
  import opened Wrappers
  import opened Uia
  import opened AutomationProviders

  /** Each child of `p` names `p` as its parent and carries its own position
      in the list as RuntimeId, as AddChild alone would leave it. */
  predicate IndexedChildren(s: Store, p: NodeId)
    requires Contains(s, p)
  {
    forall i :: 0 <= i < |s.nodes[p].children| ==>
      && Contains(s, s.nodes[p].children[i])
      && s.nodes[s.nodes[p].children[i]].runtimeId == i
      && s.nodes[s.nodes[p].children[i]].parent == Some(p)
  }

  ghost predicate ChildrenIndexed(s: Store) {
    forall p :: 0 <= p < |s.nodes| ==> IndexedChildren(s, p)
  }

  /** `c` appears in some provider's child list. */
  ghost predicate Listed(s: Store, c: NodeId) {
    exists q :: 0 <= q < |s.nodes| && c in s.nodes[q].children
  }

  /** AddChild keeps the list of `q` indexed, provided the child was not
      already in that list. */
  lemma AddChildKeepsIndexing(s: Store, p: NodeId, c: NodeId, q: NodeId)
    requires Contains(s, p) && Contains(s, c) && Contains(s, q)
    requires IndexedChildren(s, q) && c !in s.nodes[q].children
    ensures IndexedChildren(AddChild(s, p, c), q)
  {
  }

  /** With every list indexed, adding a child that no list holds yet keeps
      every list indexed. */
  lemma AddChildKeepsIndexed(s: Store, p: NodeId, c: NodeId)
    requires Contains(s, p) && Contains(s, c) && ChildrenIndexed(s) && !Listed(s, c)
    ensures ChildrenIndexed(AddChild(s, p, c))
  {
    forall q | 0 <= q < |s.nodes|
      ensures IndexedChildren(AddChild(s, p, c), q)
    {
      AddChildKeepsIndexing(s, p, c, q);
    }
  }

  /** Construction, with or without a parent, keeps every list indexed and
      leaves the new provider out of every list. */
  lemma NewKeepsIndexed(s: Store, parent: Option<NodeId>, patterns: seq<PatternId>)
    requires parent.Some? ==> Contains(s, parent.value)
    requires Valid(s) && ChildrenIndexed(s)
    ensures ChildrenIndexed(New(s, parent, patterns).store)
    ensures !Listed(New(s, parent, patterns).store, New(s, parent, patterns).node)
  {
    var r := New(s, parent, patterns);
    forall q | 0 <= q < |r.store.nodes|
      ensures IndexedChildren(r.store, q)
    {
      if q < |s.nodes| {
        assert IndexedChildren(s, q);
      }
    }
    forall q | 0 <= q < |r.store.nodes|
      ensures r.node !in r.store.nodes[q].children
    {
      if q < |s.nodes| {
        assert RefersInto(s, s.nodes[q]);
      }
    }
  }

  /** Construction with a parent sets Parent only: the parent's list, and so
      its first and last child, stay as they were. */
  lemma NewWithParentIsUnlisted(s: Store, p: NodeId, patterns: seq<PatternId>, ext: ListExtensions)
    requires Contains(s, p) && Valid(s)
    ensures var r := New(s, Some(p), patterns);
      && Navigate(r.store, r.node, NavigateDirection.Parent, ext) == Some(p)
      && r.node !in r.store.nodes[p].children
      && Navigate(r.store, p, FirstChild, ext) == Navigate(s, p, FirstChild, ext)
      && Navigate(r.store, p, LastChild, ext) == Navigate(s, p, LastChild, ext)
  {
  }

  /** AddChild re-parents without detaching: a previous parent still lists
      the child, whose Parent now names someone else, so that list is no
      longer indexed. */
  lemma AddChildLeavesPreviousParent(s: Store, p: NodeId, c: NodeId, q: NodeId)
    requires Contains(s, p) && Contains(s, c) && Contains(s, q)
    requires q != p && c in s.nodes[q].children
    ensures c in AddChild(s, p, c).nodes[q].children
    ensures AddChild(s, p, c).nodes[c].parent == Some(p)
    ensures !IndexedChildren(AddChild(s, p, c), q)
  {
  }

  /** What navigation sees right after AddChild. */
  lemma AddChildNavigation(s: Store, p: NodeId, c: NodeId, ext: ListExtensions)
    requires Contains(s, p) && Contains(s, c)
    ensures var r := AddChild(s, p, c);
      && Navigate(r, p, LastChild, ext) == Some(c)
      && Navigate(r, c, NavigateDirection.Parent, ext) == Some(p)
      && Navigate(r, p, FirstChild, ext)
         == (if |s.nodes[p].children| == 0 then Some(c) else Navigate(s, p, FirstChild, ext))
  {
  }

  // ---------------------------------------------------------------------
  // Siblings, under an assumption
  // ---------------------------------------------------------------------

  /** Assumed behaviour of `After`: the element right after the first
      occurrence of `x`, or null when `x` is last or absent. */
  function ElementAfter(xs: seq<NodeId>, x: NodeId): Option<NodeId> {
    if |xs| == 0 then None
    else if xs[0] == x then (if |xs| > 1 then Some(xs[1]) else None)
    else ElementAfter(xs[1..], x)
  }

  /** Assumed behaviour of `Before`: the element right before the first
      occurrence of `x`, or null when `x` is first or absent. */
  function ElementBefore(xs: seq<NodeId>, x: NodeId): Option<NodeId> {
    if |xs| < 2 || xs[0] == x then None
    else if xs[1] == x then Some(xs[0])
    else ElementBefore(xs[1..], x)
  }

  const AssumedExtensions: ListExtensions := ListExtensions(ElementAfter, ElementBefore)

  predicate Distinct(xs: seq<NodeId>) {
    forall a, b :: 0 <= a < b < |xs| ==> xs[a] != xs[b]
  }

  lemma {:induction false} ElementAfterAt(xs: seq<NodeId>, i: nat)
    requires Distinct(xs) && i < |xs|
    ensures ElementAfter(xs, xs[i]) == (if i + 1 < |xs| then Some(xs[i + 1]) else None)
    decreases i
  {
    if i > 0 {
      assert xs[0] != xs[i];
      assert xs[1..][i - 1] == xs[i];
      ElementAfterAt(xs[1..], i - 1);
    }
  }

  lemma {:induction false} ElementBeforeAt(xs: seq<NodeId>, i: nat)
    requires Distinct(xs) && i < |xs|
    ensures ElementBefore(xs, xs[i]) == (if i > 0 then Some(xs[i - 1]) else None)
    decreases i
  {
    if i > 1 {
      assert xs[0] != xs[i] && xs[1] != xs[i];
      assert xs[1..][i - 1] == xs[i];
      ElementBeforeAt(xs[1..], i - 1);
    }
  }

  /** An indexed list holds no provider twice: the RuntimeIds differ. */
  lemma IndexedChildrenDistinct(s: Store, p: NodeId)
    requires Contains(s, p) && IndexedChildren(s, p)
    ensures Distinct(s.nodes[p].children)
  {
  }

  /** In an indexed list, and assuming the behaviour above for `After` and
      `Before`, the sibling directions step one position along the list. */
  lemma SiblingNavigation(s: Store, p: NodeId, i: nat)
    requires Contains(s, p) && IndexedChildren(s, p) && i < |s.nodes[p].children|
    ensures var xs := s.nodes[p].children;
      && HasParentInStore(s, xs[i])
      && Navigate(s, xs[i], NextSibling, AssumedExtensions) == (if i + 1 < |xs| then Some(xs[i + 1]) else None)
      && Navigate(s, xs[i], PreviousSibling, AssumedExtensions) == (if i > 0 then Some(xs[i - 1]) else None)
  {
    IndexedChildrenDistinct(s, p);
    ElementAfterAt(s.nodes[p].children, i);
    ElementBeforeAt(s.nodes[p].children, i);
  }

  /** NextSibling then PreviousSibling comes back, under the same assumption. */
  lemma NextThenPreviousSibling(s: Store, c: NodeId, d: NodeId)
    requires HasParentInStore(s, c) && IndexedChildren(s, s.nodes[c].parent.value)
    requires c in s.nodes[s.nodes[c].parent.value].children
    requires Navigate(s, c, NextSibling, AssumedExtensions) == Some(d)
    ensures HasParentInStore(s, d) && s.nodes[d].parent == s.nodes[c].parent
    ensures Navigate(s, d, PreviousSibling, AssumedExtensions) == Some(c)
  {
    var p := s.nodes[c].parent.value;
    var xs := s.nodes[p].children;
    var i :| 0 <= i < |xs| && xs[i] == c;
    SiblingNavigation(s, p, i);
    SiblingNavigation(s, p, i + 1);
  }
}
