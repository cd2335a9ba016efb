/**
 What GetRuntimeId computes: the path of RuntimeId values from the fragment
 root down to the provider, behind the AppendRuntimeId marker, unless a
 window handle somewhere on the chain turns the result into null or into
 the exception Concat throws.
 */
module RuntimeIds {
  import opened Wrappers
  import opened Uia
  import opened AutomationProviders
  import opened Ancestry

  predicate HandleAt(s: Store, m: NodeId) {
    Contains(s, m) && HasWindowHandle(s, m)
  }

  function RuntimeIdAt(s: Store, m: NodeId): int {
    if Contains(s, m) then s.nodes[m].runtimeId else 0
  }

  /** No provider from `n` up to its root reports a window handle. */
  ghost predicate NoHandleOnChain(s: Store, n: NodeId) {
    forall k: nat :: !HandleAt(s, Up(s, n, k))
  }

  /** Some proper ancestor of `n` reports a window handle. */
  ghost predicate AncestorHasHandle(s: Store, n: NodeId)
    requires Rooted(s, n)
  {
    exists k: nat :: 1 <= k <= Depth(s, n) && HandleAt(s, Up(s, n, k))
  }

  /** Reference definition: the marker, then the RuntimeId of every provider
      from the root (`Up` by the full depth) down to `n` itself. */
  ghost function RuntimeIdPath(s: Store, n: NodeId): seq<int>
    requires Rooted(s, n)
  {
    var d := Depth(s, n);
    [AppendRuntimeId] + seq(d + 1, i requires 0 <= i <= d => RuntimeIdAt(s, Up(s, n, d - i)))
  }

  lemma NoHandleOnParentChain(s: Store, n: NodeId)
    requires Contains(s, n) && s.nodes[n].parent.Some?
    ensures NoHandleOnChain(s, n) <==> !HasWindowHandle(s, n) && NoHandleOnChain(s, s.nodes[n].parent.value)
  {
    var p := s.nodes[n].parent.value;
    assert Up(s, n, 0) == n;
    forall k: nat
      ensures Up(s, n, k + 1) == Up(s, p, k)
    {
    }
    if !HasWindowHandle(s, n) && NoHandleOnChain(s, p) {
      forall k: nat
        ensures !HandleAt(s, Up(s, n, k))
      {
        if k > 0 {
          assert Up(s, n, k) == Up(s, p, k - 1);
        }
      }
    }
  }

  /** Without window handles on the chain, GetRuntimeId returns exactly the
      reference path. */
  lemma {:induction false} RuntimeIdIsIndexPath(s: Store, n: NodeId)
    requires Rooted(s, n) && NoHandleOnChain(s, n)
    ensures GetRuntimeId(s, n) == Returned(RuntimeIdPath(s, n))
    decreases Depth(s, n)
  {
    assert Up(s, n, 0) == n;
    var d := Depth(s, n);
    var path := RuntimeIdPath(s, n);
    match s.nodes[n].parent
    case None =>
      assert path == [AppendRuntimeId, s.nodes[n].runtimeId];
    case Some(p) =>
      ParentDepth(s, n);
      NoHandleOnParentChain(s, n);
      RuntimeIdIsIndexPath(s, p);
      var prefix := RuntimeIdPath(s, p);
      assert |prefix| == d + 1;
      forall i | 0 <= i < d + 2
        ensures (prefix + [s.nodes[n].runtimeId])[i] == path[i]
      {
        if 0 < i <= d {
          assert path[i] == RuntimeIdAt(s, Up(s, n, d - (i - 1)));
          assert prefix[i] == RuntimeIdAt(s, Up(s, p, d - 1 - (i - 1)));
          assert Up(s, n, d - (i - 1)) == Up(s, p, d - 1 - (i - 1));
        } else if i == d + 1 {
          assert path[i] == RuntimeIdAt(s, Up(s, n, 0));
        }
      }
      assert prefix + [s.nodes[n].runtimeId] == path;
  }

  /** The three outcomes of GetRuntimeId, each characterised in both
      directions. */
  lemma {:induction false} RuntimeIdOutcome(s: Store, n: NodeId)
    requires Rooted(s, n)
    ensures GetRuntimeId(s, n).Returned? <==> NoHandleOnChain(s, n)
    ensures GetRuntimeId(s, n).ReturnedNull? <==> HasWindowHandle(s, n)
    ensures GetRuntimeId(s, n).ThrewArgumentNull? <==> !HasWindowHandle(s, n) && AncestorHasHandle(s, n)
    decreases Depth(s, n)
  {
    assert Up(s, n, 0) == n;
    match s.nodes[n].parent
    case None =>
      forall k: nat
        ensures Up(s, n, k) == n
      {
      }
    case Some(p) =>
      ParentDepth(s, n);
      NoHandleOnParentChain(s, n);
      RuntimeIdOutcome(s, p);
      if AncestorHasHandle(s, n) && !HasWindowHandle(s, n) {
        var k: nat :| 1 <= k <= Depth(s, n) && HandleAt(s, Up(s, n, k));
        assert Up(s, n, k) == Up(s, p, k - 1);
        assert !NoHandleOnChain(s, p);
      }
      if !NoHandleOnChain(s, p) {
        var k: nat :| HandleAt(s, Up(s, p, k));
        var j: nat := if k <= Depth(s, p) then k else Depth(s, p);
        UpOnChain(s, p, k);
        UpOnChain(s, p, j);
        assert Up(s, p, j) == Up(s, p, k);
        assert Up(s, n, j + 1) == Up(s, p, j);
        assert AncestorHasHandle(s, n);
      }
  }

  /** A window handle on a provider hides the runtime ID of its children:
      a child without a handle of its own then fails in Concat. */
  lemma WindowHandleBreaksChildren(s: Store, a: NodeId, v: Value, c: NodeId)
    requires Contains(s, a) && v != Null && Rooted(s, c) && s.nodes[c].parent == Some(a) && c != a
    requires !HasWindowHandle(s, c)
    ensures var r := SetPropertyValue(s, a, NativeWindowHandleProperty, v);
      Rooted(r, a) && Rooted(r, c) && GetRuntimeId(r, a) == ReturnedNull && GetRuntimeId(r, c) == ThrewArgumentNull
  {
    var r := SetPropertyValue(s, a, NativeWindowHandleProperty, v);
    SameParentsKeepAncestry(s, r, c);
    ParentDepth(r, c);
  }

  /** Every provider on the chain of `n` is unchanged in `r` except,
      perhaps, for its child list. */
  ghost predicate ChainNodesKept(s: Store, r: Store, n: NodeId) {
    forall k: nat :: Contains(s, Up(s, n, k)) ==>
      Contains(r, Up(s, n, k)) && r.nodes[Up(s, n, k)].(children := s.nodes[Up(s, n, k)].children) == s.nodes[Up(s, n, k)]
  }

  /** GetRuntimeId reads only the chain, and not the child lists on it. */
  lemma {:induction false} ChainNodesKeptRuntimeId(s: Store, r: Store, n: NodeId)
    requires Rooted(s, n) && ChainNodesKept(s, r, n)
    ensures Rooted(r, n) && GetRuntimeId(r, n) == GetRuntimeId(s, n)
    decreases Depth(s, n)
  {
    assert ChainKept(s, r, n) by {
      forall k: nat | Contains(s, Up(s, n, k))
        ensures Contains(r, Up(s, n, k)) && r.nodes[Up(s, n, k)].parent == s.nodes[Up(s, n, k)].parent
      {
        assert r.nodes[Up(s, n, k)].(children := s.nodes[Up(s, n, k)].children).parent == r.nodes[Up(s, n, k)].parent;
      }
    }
    ChainKeptAncestry(s, r, n);
    assert Up(s, n, 0) == n;
    assert r.nodes[n].(children := s.nodes[n].children) == s.nodes[n];
    match s.nodes[n].parent
    case None =>
    case Some(p) =>
      ParentDepth(s, n);
      ParentDepth(r, n);
      assert ChainNodesKept(s, r, p) by {
        forall k: nat | Contains(s, Up(s, p, k))
          ensures Contains(r, Up(s, p, k)) && r.nodes[Up(s, p, k)].(children := s.nodes[Up(s, p, k)].children) == s.nodes[Up(s, p, k)]
        {
          assert Up(s, n, k + 1) == Up(s, p, k);
        }
      }
      ChainNodesKeptRuntimeId(s, r, p);
  }

  /** After AddChild the child's runtime ID is its new parent's runtime ID
      followed by the child's position in the parent's list. */
  lemma AddChildRuntimeId(s: Store, p: NodeId, c: NodeId)
    requires Contains(s, p) && Contains(s, c) && Rooted(s, p) && !OnChain(s, c, p)
    ensures var r := AddChild(s, p, c);
      && Rooted(r, c) && Rooted(r, p)
      && GetRuntimeId(r, p) == GetRuntimeId(s, p)
      && (HasWindowHandle(s, c) ==> GetRuntimeId(r, c) == ReturnedNull)
      && (!HasWindowHandle(s, c) && GetRuntimeId(s, p).Returned? ==>
            GetRuntimeId(r, c) == Returned(GetRuntimeId(s, p).ids + [|s.nodes[p].children|]))
      && (!HasWindowHandle(s, c) && !GetRuntimeId(s, p).Returned? ==> GetRuntimeId(r, c) == ThrewArgumentNull)
  {
    var r := AddChild(s, p, c);
    forall k: nat | Contains(s, Up(s, p, k))
      ensures Contains(r, Up(s, p, k)) && r.nodes[Up(s, p, k)].(children := s.nodes[Up(s, p, k)].children) == s.nodes[Up(s, p, k)]
    {
      assert Up(s, p, k) != c;
    }
    ChainNodesKeptRuntimeId(s, r, p);
    assert Up(s, p, 0) == p;
    AddChildKeepsRooted(s, p, c, p);
    assert ReachesRootIn(r, c, Depth(r, p) + 1);
    ParentDepth(r, c);
  }

  /** A window handle stops GetRuntimeId even on a cyclic chain: a provider
      added as its own child and then given a handle has no finite chain,
      yet returns null. A child of it without a handle of its own has no
      finite chain either, and Concat throws for it. */
  lemma HandleStopsCycle(s: Store, n: NodeId, v: Value, c: NodeId)
    requires Contains(s, n) && Contains(s, c) && v != Null
    requires c != n && s.nodes[c].parent == Some(n) && !HasWindowHandle(s, c)
    ensures var t := SetPropertyValue(AddChild(s, n, n), n, NativeWindowHandleProperty, v);
      && !Rooted(t, n) && !Rooted(t, c)
      && RuntimeIdHalts(t, n) && RuntimeIdHalts(t, c)
      && GetRuntimeId(t, n) == ReturnedNull
      && GetRuntimeId(t, c) == ThrewArgumentNull
  {
    var t := SetPropertyValue(AddChild(s, n, n), n, NativeWindowHandleProperty, v);
    forall d: nat
      ensures !ReachesRootIn(t, n, d) && !ReachesRootIn(t, c, d)
    {
      OwnParentNeverRooted(t, n, d);
      if d > 0 {
        OwnParentNeverRooted(t, n, d - 1);
      }
    }
    assert StopsIn(t, n, 0);
    assert StopsIn(t, c, 1);
  }
}
