/**
 Facts about parent chains: where FragmentRoot lands, which operations keep
 every chain finite, and how AddChild moves a child under another root.
 */
module Ancestry {
  import opened Wrappers
  import opened AutomationProviders

  /** `a` is `n` itself or one of its ancestors. */
  ghost predicate OnChain(s: Store, a: NodeId, n: NodeId) {
    exists k: nat :: Up(s, n, k) == a
  }

  /** Every provider on the chain of `n` in `s` is still in `r` and has the
      same Parent there. */
  ghost predicate ChainKept(s: Store, r: Store, n: NodeId) {
    forall k: nat :: Contains(s, Up(s, n, k)) ==>
      Contains(r, Up(s, n, k)) && r.nodes[Up(s, n, k)].parent == s.nodes[Up(s, n, k)].parent
  }

  /** Same providers, same Parent fields. */
  predicate SameParents(s: Store, r: Store) {
    && |r.nodes| == |s.nodes|
    && forall m :: 0 <= m < |s.nodes| ==> r.nodes[m].parent == s.nodes[m].parent
  }

  lemma {:induction false} ChainKeptOfParent(s: Store, r: Store, n: NodeId)
    requires ChainKept(s, r, n) && Contains(s, n) && s.nodes[n].parent.Some?
    ensures ChainKept(s, r, s.nodes[n].parent.value)
  {
    var p := s.nodes[n].parent.value;
    forall k: nat | Contains(s, Up(s, p, k))
      ensures Contains(r, Up(s, p, k)) && r.nodes[Up(s, p, k)].parent == s.nodes[Up(s, p, k)].parent
    {
      assert Up(s, n, k + 1) == Up(s, p, k);
    }
  }

  /** A store that keeps the chain of `n` keeps its depth and fragment root. */
  lemma {:induction false} ChainKeptAncestry(s: Store, r: Store, n: NodeId)
    requires Rooted(s, n) && ChainKept(s, r, n)
    ensures Rooted(r, n) && Depth(r, n) == Depth(s, n)
    ensures FragmentRoot(r, n) == FragmentRoot(s, n)
    decreases Depth(s, n)
  {
    assert Up(s, n, 0) == n;
    match s.nodes[n].parent
    case None =>
      assert ReachesRootIn(r, n, 0);
      DepthUnique(r, n, Depth(r, n), 0);
    case Some(p) =>
      ParentDepth(s, n);
      ChainKeptOfParent(s, r, n);
      ChainKeptAncestry(s, r, p);
      assert ReachesRootIn(r, n, Depth(r, p) + 1);
      DepthUnique(r, n, Depth(r, n), Depth(r, p) + 1);
      ParentDepth(r, n);
  }

  lemma SameParentsKeepAncestry(s: Store, r: Store, n: NodeId)
    requires SameParents(s, r) && Rooted(s, n)
    ensures Rooted(r, n) && Depth(r, n) == Depth(s, n)
    ensures FragmentRoot(r, n) == FragmentRoot(s, n)
  {
    ChainKeptAncestry(s, r, n);
  }

  /** Walking up `k` steps stays on the chain: the provider reached is rooted
      `k` levels higher (or is the root once `k` passes the depth) and shares
      the fragment root. */
  lemma {:induction false} UpOnChain(s: Store, n: NodeId, k: nat)
    requires Rooted(s, n)
    ensures Contains(s, Up(s, n, k)) && Rooted(s, Up(s, n, k))
    ensures k <= Depth(s, n) ==> Depth(s, Up(s, n, k)) == Depth(s, n) - k
    ensures k >= Depth(s, n) ==> Up(s, n, k) == FragmentRoot(s, n)
    ensures FragmentRoot(s, Up(s, n, k)) == FragmentRoot(s, n)
    decreases k
  {
    if k > 0 {
      match s.nodes[n].parent
      case None =>
      case Some(p) =>
        ParentDepth(s, n);
        UpOnChain(s, p, k - 1);
    }
  }

  /** FragmentRoot is the only provider without a parent on the chain of
      `n`, so it is the topmost ancestor. */
  lemma FragmentRootIsTopmost(s: Store, n: NodeId, k: nat)
    requires Rooted(s, n)
    requires Contains(s, Up(s, n, k)) && s.nodes[Up(s, n, k)].parent.None?
    ensures Up(s, n, k) == FragmentRoot(s, n)
    ensures OnChain(s, FragmentRoot(s, n), n)
  {
    UpOnChain(s, n, k);
    UpOnChain(s, n, Depth(s, n));
  }

  /** Construction leaves every existing chain alone, and the new provider
      joins the fragment of its parent (or is its own root). */
  lemma NewKeepsAcyclic(s: Store, parent: Option<NodeId>, patterns: seq<int>)
    requires parent.Some? ==> Contains(s, parent.value)
    requires Acyclic(s)
    ensures var r := New(s, parent, patterns);
      && Acyclic(r.store)
      && (forall m :: 0 <= m < |s.nodes| ==> FragmentRoot(r.store, m) == FragmentRoot(s, m))
      && FragmentRoot(r.store, r.node) == (if parent.None? then r.node else FragmentRoot(s, parent.value))
  {
    var r := New(s, parent, patterns);
    forall m | 0 <= m < |s.nodes|
      ensures Rooted(r.store, m) && FragmentRoot(r.store, m) == FragmentRoot(s, m)
    {
      forall k: nat | Contains(s, Up(s, m, k))
        ensures Contains(r.store, Up(s, m, k))
          && r.store.nodes[Up(s, m, k)].parent == s.nodes[Up(s, m, k)].parent
      {
      }
      ChainKeptAncestry(s, r.store, m);
    }
    match parent
    case None =>
      assert ReachesRootIn(r.store, r.node, 0);
    case Some(p) =>
      assert Rooted(r.store, p);
      assert ReachesRootIn(r.store, r.node, Depth(r.store, p) + 1);
  }

  /** AddChild leaves alone the chain of every provider that does not pass
      through the child. */
  lemma AddChildKeepsOtherChains(s: Store, p: NodeId, c: NodeId, m: NodeId)
    requires Contains(s, p) && Contains(s, c) && Rooted(s, m) && !OnChain(s, c, m)
    ensures Rooted(AddChild(s, p, c), m)
    ensures FragmentRoot(AddChild(s, p, c), m) == FragmentRoot(s, m)
  {
    var r := AddChild(s, p, c);
    forall k: nat | Contains(s, Up(s, m, k))
      ensures Contains(r, Up(s, m, k)) && r.nodes[Up(s, m, k)].parent == s.nodes[Up(s, m, k)].parent
    {
      assert Up(s, m, k) != c;
    }
    ChainKeptAncestry(s, r, m);
  }

  /** When the child is not the parent or one of its ancestors, AddChild keeps
      the chain of every rooted provider finite; the providers whose chain
      passed through the child now belong to the parent's fragment. */
  lemma {:induction false} AddChildKeepsRooted(s: Store, p: NodeId, c: NodeId, m: NodeId)
    requires Contains(s, p) && Contains(s, c) && Rooted(s, p) && !OnChain(s, c, p)
    requires Rooted(s, m)
    ensures Rooted(AddChild(s, p, c), m)
    ensures OnChain(s, c, m) ==> FragmentRoot(AddChild(s, p, c), m) == FragmentRoot(s, p)
    ensures !OnChain(s, c, m) ==> FragmentRoot(AddChild(s, p, c), m) == FragmentRoot(s, m)
    decreases Depth(s, m)
  {
    var r := AddChild(s, p, c);
    if !OnChain(s, c, m) {
      AddChildKeepsOtherChains(s, p, c, m);
    } else if m == c {
      AddChildKeepsOtherChains(s, p, c, p);
      assert ReachesRootIn(r, c, Depth(r, p) + 1);
    } else {
      var k: nat :| Up(s, m, k) == c;
      assert s.nodes[m].parent.Some?;
      var q := s.nodes[m].parent.value;
      ParentDepth(s, m);
      assert Up(s, q, k - 1) == c;
      AddChildKeepsRooted(s, p, c, q);
      assert r.nodes[m].parent == Some(q);
      assert ReachesRootIn(r, m, Depth(r, q) + 1);
    }
  }

  /** Store-level form: AddChild keeps the store acyclic and moves the child
      under the parent's fragment root. */
  lemma AddChildKeepsAcyclic(s: Store, p: NodeId, c: NodeId)
    requires Contains(s, p) && Contains(s, c) && Acyclic(s) && !OnChain(s, c, p)
    ensures Acyclic(AddChild(s, p, c))
    ensures FragmentRoot(AddChild(s, p, c), c) == FragmentRoot(s, p)
  {
    forall m | 0 <= m < |s.nodes|
      ensures Rooted(AddChild(s, p, c), m)
    {
      AddChildKeepsRooted(s, p, c, m);
    }
    assert Up(s, c, 0) == c;
    AddChildKeepsRooted(s, p, c, c);
  }

  /** A provider that is its own parent never reaches a root, so FragmentRoot
      cannot be called on it, and GetRuntimeId only when it has a window
      handle. */
  lemma {:induction false} OwnParentNeverRooted(s: Store, n: NodeId, d: nat)
    requires Contains(s, n) && s.nodes[n].parent == Some(n)
    ensures !ReachesRootIn(s, n, d)
    decreases d
  {
    if d > 0 {
      OwnParentNeverRooted(s, n, d - 1);
    }
  }

  /** Adding a provider as its own child makes its chain infinite. */
  lemma AddChildToItselfCycles(s: Store, n: NodeId)
    requires Contains(s, n)
    ensures !Rooted(AddChild(s, n, n), n)
  {
    var r := AddChild(s, n, n);
    forall d: nat
      ensures !ReachesRootIn(r, n, d)
    {
      OwnParentNeverRooted(r, n, d);
    }
  }
}
