/** Central's two walks over reported parent pointers: the next hop towards a Node, and the tree view. */
module Routing {
  import opened Common
  import opened PlanningNodes

  predicate Smart(nodes: seq<PlanningNode>, mac: MacAddress) {
    Registered(nodes, mac) && !Lookup(nodes, mac).isCentral
  }

  /** a is a registered non-central Node whose reported parent is b. */
  predicate Link(nodes: seq<PlanningNode>, a: MacAddress, b: MacAddress) {
    Smart(nodes, a) && Lookup(nodes, a).parent == b
  }

  /** p walks parent pointers through registered non-central Nodes until the first one attached to target. */
  ghost predicate RoutePath(nodes: seq<PlanningNode>, target: MacAddress, p: seq<MacAddress>) {
    && p != []
    && (forall i | 0 <= i < |p| - 1 :: Link(nodes, p[i], p[i + 1]))
    && (forall i | 0 < i < |p| :: p[i] != target)
    && Link(nodes, p[|p| - 1], target)
  }

  lemma RoutePathTail(nodes: seq<PlanningNode>, target: MacAddress, p: seq<MacAddress>, k: nat)
    requires RoutePath(nodes, target, p) && k < |p|
    ensures RoutePath(nodes, target, p[k..])
  {
    var t := p[k..];
    forall i | 0 <= i < |t| - 1 ensures Link(nodes, t[i], t[i + 1]) {
      assert Link(nodes, p[k + i], p[k + i + 1]);
    }
  }

  lemma RoutePathAt(nodes: seq<PlanningNode>, target: MacAddress, p: seq<MacAddress>, i: nat)
    requires RoutePath(nodes, target, p) && i < |p|
    ensures Smart(nodes, p[i])
  {
    if i < |p| - 1 { assert Link(nodes, p[i], p[i + 1]); }
  }

  /** The walk is deterministic: there is at most one from each Node. */
  lemma {:induction false} RoutePathUnique(nodes: seq<PlanningNode>, target: MacAddress, p: seq<MacAddress>,
                                           q: seq<MacAddress>)
    requires RoutePath(nodes, target, p) && RoutePath(nodes, target, q) && p[0] == q[0]
    ensures p == q
  {
    assert p == [p[0]] + p[1..] && q == [q[0]] + q[1..];
    if |p| > 1 { assert Link(nodes, p[0], p[1]); }
    if |q| > 1 { assert Link(nodes, q[0], q[1]); }
    if |p| > 1 && |q| > 1 {
      RoutePathTail(nodes, target, p, 1);
      RoutePathTail(nodes, target, q, 1);
      RoutePathUnique(nodes, target, p[1..], q[1..]);
    }
  }

  /** Pigeonhole: a walk that arrives repeats no Node, so it is no longer than the registry. */
  lemma RoutePathShort(nodes: seq<PlanningNode>, target: MacAddress, p: seq<MacAddress>)
    requires RoutePath(nodes, target, p)
    ensures forall i, j | 0 <= i < j < |p| :: p[i] != p[j]
    ensures |p| <= |nodes|
  {
    forall i, j | 0 <= i < j < |p| ensures p[i] != p[j] {
      if p[i] == p[j] {
        RoutePathTail(nodes, target, p, i);
        RoutePathTail(nodes, target, p, j);
        RoutePathUnique(nodes, target, p[i..], p[j..]);
      }
    }
    var at := seq(|p|, i requires 0 <= i < |p| => IndexOfMac(nodes, p[i]));
    forall i | 0 <= i < |p| ensures at[i] < |nodes| && nodes[at[i]].mac == p[i] {
      if i < |p| - 1 { assert Link(nodes, p[i], p[i + 1]); }
    }
    Pigeonhole(at, |nodes|);
  }

  /** Distinct numbers below n are at most n many. */
  lemma {:induction false} Pigeonhole(s: seq<nat>, n: nat)
    requires forall i | 0 <= i < |s| :: s[i] < n
    requires forall i, j | 0 <= i < j < |s| :: s[i] != s[j]
    ensures |s| <= n
  {
    if s != [] {
      assert 0 <= s[0] < n;
      if n - 1 in s {
        var k :| 0 <= k < |s| && s[k] == n - 1;
        var t := s[..k] + s[k + 1..];
        assert forall i | 0 <= i < |t| :: t[i] == s[if i < k then i else i + 1];
        forall i | 0 <= i < |t| ensures t[i] < n - 1 { assert s[if i < k then i else i + 1] != s[k]; }
        Pigeonhole(t, n - 1);
      } else {
        Pigeonhole(s, n - 1);
      }
    }
  }

  /** The Nodes met so far on the way from walked[0], none of them attached to target yet. */
  ghost predicate Walk(nodes: seq<PlanningNode>, target: MacAddress, walked: seq<MacAddress>) {
    && walked != []
    && (forall i | 0 <= i < |walked| - 1 :: Link(nodes, walked[i], walked[i + 1]))
    && (forall i | 0 < i < |walked| :: walked[i] != target)
    && Smart(nodes, walked[|walked| - 1])
  }

  lemma {:induction false} WalkIsForced(nodes: seq<PlanningNode>, target: MacAddress, walked: seq<MacAddress>,
                                        q: seq<MacAddress>, k: nat)
    requires Walk(nodes, target, walked) && RoutePath(nodes, target, q) && walked[0] == q[0]
    requires k < |walked|
    ensures k < |q| && q[k] == walked[k]
  {
    if k > 0 {
      WalkIsForced(nodes, target, walked, q, k - 1);
      assert Link(nodes, walked[k - 1], walked[k]);
      if k < |q| { assert Link(nodes, q[k - 1], q[k]); }
    }
  }

  /** A walk that leaves the registry, or outgrows it, shows that its first Node has no route. */
  lemma WalkFails(nodes: seq<PlanningNode>, target: MacAddress, walked: seq<MacAddress>)
    requires Walk(nodes, target, walked)
    requires || |walked| > |nodes|
             || var next := Lookup(nodes, walked[|walked| - 1]).parent; next != target && !Smart(nodes, next)
    ensures forall q :: RoutePath(nodes, target, q) ==> q[0] != walked[0]
  {
    forall q | RoutePath(nodes, target, q) ensures q[0] != walked[0] {
      if q[0] == walked[0] {
        var k := |walked| - 1;
        RoutePathShort(nodes, target, q);
        WalkIsForced(nodes, target, walked, q, k);
        if k < |q| - 1 { assert Link(nodes, q[k], q[k + 1]); }
        if k + 1 < |q| { RoutePathAt(nodes, target, q, k + 1); }
      }
    }
  }

  /** Sound and complete on any registry, cyclic or dangling pointers included: the loop bound never hides a route. */
  method FindNextHopFromCentral(nodes: seq<PlanningNode>, central: MacAddress, destination: MacAddress)
    returns (nextHop: Option<MacAddress>)
    ensures nextHop.Some? ==>
              exists p :: RoutePath(nodes, central, p) && p[0] == destination && p[|p| - 1] == nextHop.value
    ensures nextHop.None? ==> forall p :: RoutePath(nodes, central, p) ==> p[0] != destination
  {
    var k := FindNodeByMacAddress(nodes, destination);
    if k == |nodes| || nodes[k].isCentral {
      NotSmartNoRoute(nodes, central, destination);
      return None;
    }
    var current := nodes[k];
    ghost var walked := [destination];
    var depth := 0;
    while depth <= |nodes|
      invariant depth <= |nodes| + 1 && |walked| == depth + 1 && walked[0] == destination
      invariant Walk(nodes, central, walked)
      invariant current == Lookup(nodes, walked[depth])
    {
      if current.parent == central {
        assert RoutePath(nodes, central, walked);
        return Some(current.mac);
      }
      k := FindNodeByMacAddress(nodes, current.parent);
      if k == |nodes| || nodes[k].isCentral {
        WalkFails(nodes, central, walked);
        return None;
      }
      walked := walked + [current.parent];
      current := nodes[k];
      depth := depth + 1;
    }
    WalkFails(nodes, central, walked);
    return None;
  }

  lemma NotSmartNoRoute(nodes: seq<PlanningNode>, target: MacAddress, m: MacAddress)
    requires !Smart(nodes, m)
    ensures forall q :: RoutePath(nodes, target, q) ==> q[0] != m
  {
    forall q | RoutePath(nodes, target, q) ensures q[0] != m {
      if |q| > 1 { assert Link(nodes, q[0], q[1]); }
    }
  }

  // ---------------------------------------------------------------------------------------------------
  // The tree view
  // ---------------------------------------------------------------------------------------------------

  datatype Tree = Tree(mac: MacAddress, children: seq<Tree>)

  /** The subtrees under parent for the registry entries from position from on, at most depth + 1 levels deep. */
  function ChildTrees(nodes: seq<PlanningNode>, parent: MacAddress, depth: nat, from: nat): seq<Tree>
    requires from <= |nodes|
    decreases depth, |nodes| - from
  {
    if from == |nodes| then []
    else if nodes[from].isCentral || nodes[from].parent != parent then ChildTrees(nodes, parent, depth, from + 1)
    else
      var below := if depth > 0 then ChildTrees(nodes, nodes[from].mac, depth - 1, 0) else [];
      [Tree(nodes[from].mac, below)] + ChildTrees(nodes, parent, depth, from + 1)
  }

  method AppendChildren(nodes: seq<PlanningNode>, parent: MacAddress, depthRemaining: nat) returns (out: seq<Tree>)
    ensures out == ChildTrees(nodes, parent, depthRemaining, 0)
    decreases depthRemaining
  {
    out := [];
    var index := 0;
    while index < |nodes|
      invariant index <= |nodes|
      invariant out + ChildTrees(nodes, parent, depthRemaining, index) == ChildTrees(nodes, parent, depthRemaining, 0)
    {
      ghost var rest, grown := ChildTrees(nodes, parent, depthRemaining, index + 1), out;
      if !nodes[index].isCentral && nodes[index].parent == parent {
        var below := [];
        if depthRemaining > 0 {
          below := AppendChildren(nodes, nodes[index].mac, depthRemaining - 1);
        }
        out := out + [Tree(nodes[index].mac, below)];
        assert ChildTrees(nodes, parent, depthRemaining, index) == [Tree(nodes[index].mac, below)] + rest;
        assert grown + ([Tree(nodes[index].mac, below)] + rest) == out + rest;
      } else {
        assert ChildTrees(nodes, parent, depthRemaining, index) == rest;
      }
      index := index + 1;
    }
  }

  /** The tree under the first Central entry, or nothing when no Central is registered. */
  method BuildTree(nodes: seq<PlanningNode>) returns (tree: Option<Tree>)
    ensures tree.None? <==> forall i | 0 <= i < |nodes| :: !nodes[i].isCentral
    ensures tree.Some? ==> exists c | 0 <= c < |nodes| ::
                             && nodes[c].isCentral && (forall i | 0 <= i < c :: !nodes[i].isCentral)
                             && tree.value == Tree(nodes[c].mac, ChildTrees(nodes, nodes[c].mac, |nodes|, 0))
  {
    var c := 0;
    while c < |nodes| && !nodes[c].isCentral
      invariant c <= |nodes|
      invariant forall i | 0 <= i < c :: !nodes[i].isCentral
    {
      c := c + 1;
    }
    if c == |nodes| {
      return None;
    }
    var children := AppendChildren(nodes, nodes[c].mac, |nodes|);
    return Some(Tree(nodes[c].mac, children));
  }

  /** Every Node shown, in order of appearance. */
  function Listing(trees: seq<Tree>): seq<MacAddress>
    decreases trees
  {
    if trees == [] then []
    else [trees[0].mac] + Listing(trees[0].children) + Listing(trees[1..])
  }

  /** p climbs from a Node to target through registered non-central Nodes. */
  ghost predicate Chain(nodes: seq<PlanningNode>, target: MacAddress, p: seq<MacAddress>) {
    && p != []
    && (forall i | 0 <= i < |p| - 1 :: Link(nodes, p[i], p[i + 1]))
    && Link(nodes, p[|p| - 1], target)
  }

  predicate IsChild(nodes: seq<PlanningNode>, parent: MacAddress, i: nat) {
    i < |nodes| && !nodes[i].isCentral && nodes[i].parent == parent
  }

  /** A listed Node is the child at this position, or listed further on, or below that child. */
  lemma ListedWhere(nodes: seq<PlanningNode>, parent: MacAddress, depth: nat, from: nat, m: MacAddress)
    returns (further: bool, below: bool)
    requires from <= |nodes| && m in Listing(ChildTrees(nodes, parent, depth, from))
    ensures from < |nodes|
    ensures further ==> m in Listing(ChildTrees(nodes, parent, depth, from + 1))
    ensures !further ==> IsChild(nodes, parent, from)
    ensures !further && below ==> depth > 0 && m in Listing(ChildTrees(nodes, nodes[from].mac, depth - 1, 0))
    ensures !further && !below ==> m == nodes[from].mac
  {
    if IsChild(nodes, parent, from) {
      assert ChildTrees(nodes, parent, depth, from)[1..] == ChildTrees(nodes, parent, depth, from + 1);
      further := m in Listing(ChildTrees(nodes, parent, depth, from + 1));
      below := m != nodes[from].mac;
    } else {
      further, below := true, false;
    }
  }

  lemma ChainThroughChild(nodes: seq<PlanningNode>, parent: MacAddress, from: nat, below: seq<MacAddress>)
    returns (p: seq<MacAddress>)
    requires DistinctMacs(nodes) && IsChild(nodes, parent, from)
    requires below == [] || Chain(nodes, nodes[from].mac, below)
    ensures Chain(nodes, parent, p) && |p| == |below| + 1 && IndexOfMac(nodes, p[|p| - 1]) >= from
    ensures p[0] == if below == [] then nodes[from].mac else below[0]
  {
    IndexOfOwnMac(nodes, from);
    if below != [] { ChainAppend(nodes, nodes[from].mac, below, parent); }
    p := below + [nodes[from].mac];
  }

  lemma {:induction false} ListedHasChain(nodes: seq<PlanningNode>, parent: MacAddress, depth: nat, from: nat,
                                          m: MacAddress)
    returns (p: seq<MacAddress>)
    requires DistinctMacs(nodes) && from <= |nodes|
    requires m in Listing(ChildTrees(nodes, parent, depth, from))
    ensures Chain(nodes, parent, p) && p[0] == m && |p| <= depth + 1
    ensures IndexOfMac(nodes, p[|p| - 1]) >= from
    decreases depth, |nodes| - from
  {
    var further, below := ListedWhere(nodes, parent, depth, from, m);
    if further {
      p := ListedHasChain(nodes, parent, depth, from + 1, m);
    } else {
      var q := [];
      if below { q := ListedHasChain(nodes, nodes[from].mac, depth - 1, 0, m); }
      p := ChainThroughChild(nodes, parent, from, q);
    }
  }

  lemma {:induction false} ChainIsListed(nodes: seq<PlanningNode>, parent: MacAddress, depth: nat, from: nat,
                                         p: seq<MacAddress>)
    requires DistinctMacs(nodes) && from <= |nodes|
    requires Chain(nodes, parent, p) && |p| <= depth + 1
    requires IndexOfMac(nodes, p[|p| - 1]) >= from
    ensures p[0] in Listing(ChildTrees(nodes, parent, depth, from))
    decreases depth, |nodes| - from
  {
    var last := p[|p| - 1];
    var here := nodes[from];
    var rest := ChildTrees(nodes, parent, depth, from + 1);
    if here.isCentral || here.parent != parent {
      ChainIsListed(nodes, parent, depth, from + 1, p);
    } else {
      assert ChildTrees(nodes, parent, depth, from)[1..] == rest;
      if last != here.mac {
        ChainIsListed(nodes, parent, depth, from + 1, p);
      } else if |p| > 1 {
        ChainIsListed(nodes, here.mac, depth - 1, 0, p[..|p| - 1]);
      }
    }
  }

  /** A registry whose Central entry owns the address the chains end at. */
  ghost predicate Rooted(nodes: seq<PlanningNode>, central: MacAddress) {
    DistinctMacs(nodes) && Registered(nodes, central) && Lookup(nodes, central).isCentral
  }

  lemma ChainsAreRoutePaths(nodes: seq<PlanningNode>, central: MacAddress, p: seq<MacAddress>)
    requires Rooted(nodes, central)
    ensures Chain(nodes, central, p) <==> RoutePath(nodes, central, p)
  {
    if Chain(nodes, central, p) {
      forall i | 0 < i < |p| ensures p[i] != central {
        if i < |p| - 1 { assert Link(nodes, p[i], p[i + 1]); }
      }
    }
  }

  /** q leads from parent up to Central; it is empty when parent is Central itself. */
  ghost predicate Above(nodes: seq<PlanningNode>, central: MacAddress, parent: MacAddress, q: seq<MacAddress>) {
    if q == [] then parent == central else Chain(nodes, central, q) && q[0] == parent
  }

  lemma ChainExtends(nodes: seq<PlanningNode>, central: MacAddress, parent: MacAddress, p: seq<MacAddress>,
                     q: seq<MacAddress>)
    requires Rooted(nodes, central) && Chain(nodes, parent, p) && Above(nodes, central, parent, q)
    ensures RoutePath(nodes, central, p + q)
  {
    ChainsAreRoutePaths(nodes, central, p + q);
  }

  /** Below a Node that hangs under Central there is only one way up. */
  lemma OneClimb(nodes: seq<PlanningNode>, central: MacAddress, parent: MacAddress, q: seq<MacAddress>,
                 p: seq<MacAddress>, r: seq<MacAddress>)
    requires Rooted(nodes, central) && Above(nodes, central, parent, q)
    requires Chain(nodes, parent, p) && Chain(nodes, parent, r) && p[0] == r[0]
    ensures p == r
  {
    ChainExtends(nodes, central, parent, p, q);
    ChainExtends(nodes, central, parent, r, q);
    RoutePathUnique(nodes, central, p + q, r + q);
    assert |p| == |r|;
    assert p == (p + q)[..|p|] && r == (r + q)[..|r|];
  }

  lemma ChainAppend(nodes: seq<PlanningNode>, c: MacAddress, p: seq<MacAddress>, parent: MacAddress)
    requires Chain(nodes, c, p) && Link(nodes, c, parent)
    ensures Chain(nodes, parent, p + [c])
  {
  }

  lemma NoRepeatsConcat<T>(a: seq<T>, b: seq<T>)
    requires NoRepeats(a) && NoRepeats(b) && forall x <- a :: x !in b
    ensures NoRepeats(a + b)
  {
    var c := a + b;
    forall i, j | 0 <= i < j < |c| ensures c[i] != c[j] {
      assert c[i] == if i < |a| then a[i] else b[i - |a|];
      assert c[j] == if j < |a| then a[j] else b[j - |a|];
      if i < |a| <= j { assert a[i] in a && b[j - |a|] in b; }
    }
  }

  /** The entry at position from is a child of parent, which itself hangs under Central by q. */
  ghost predicate ChildAt(nodes: seq<PlanningNode>, central: MacAddress, parent: MacAddress, q: seq<MacAddress>,
                          from: nat) {
    && Rooted(nodes, central) && Above(nodes, central, parent, q) && from < |nodes|
    && !nodes[from].isCentral && nodes[from].parent == parent
  }

  lemma ChildHangsAbove(nodes: seq<PlanningNode>, central: MacAddress, parent: MacAddress, q: seq<MacAddress>,
                        from: nat)
    requires ChildAt(nodes, central, parent, q, from)
    ensures Chain(nodes, parent, [nodes[from].mac])
    ensures Above(nodes, central, nodes[from].mac, [nodes[from].mac] + q)
    ensures |q| + 1 <= |nodes|
  {
    var c := nodes[from].mac;
    IndexOfOwnMac(nodes, from);
    ChainExtends(nodes, central, parent, [c], q);
    ChainsAreRoutePaths(nodes, central, [c] + q);
    RoutePathShort(nodes, central, [c] + q);
  }

  lemma ChildNotListedLater(nodes: seq<PlanningNode>, central: MacAddress, parent: MacAddress, q: seq<MacAddress>,
                            depth: nat, from: nat)
    requires ChildAt(nodes, central, parent, q, from)
    ensures nodes[from].mac !in Listing(ChildTrees(nodes, parent, depth, from + 1))
  {
    var c := nodes[from].mac;
    if c in Listing(ChildTrees(nodes, parent, depth, from + 1)) {
      var r := ListedHasChain(nodes, parent, depth, from + 1, c);
      ChildHangsAbove(nodes, central, parent, q, from);
      IndexOfOwnMac(nodes, from);
      OneClimb(nodes, central, parent, q, [c], r);
    }
  }

  lemma BelowNotListedElsewhere(nodes: seq<PlanningNode>, central: MacAddress, parent: MacAddress, q: seq<MacAddress>,
                                depth: nat, from: nat, m: MacAddress)
    requires ChildAt(nodes, central, parent, q, from) && depth > 0
    requires m in Listing(ChildTrees(nodes, nodes[from].mac, depth - 1, 0))
    ensures m != nodes[from].mac && m !in Listing(ChildTrees(nodes, parent, depth, from + 1))
  {
    var c := nodes[from].mac;
    IndexOfOwnMac(nodes, from);
    ChildHangsAbove(nodes, central, parent, q, from);
    var p := ListedHasChain(nodes, c, depth - 1, 0, m);
    ChainAppend(nodes, c, p, parent);
    if m == c { OneClimb(nodes, central, parent, q, p + [c], [c]); }
    if m in Listing(ChildTrees(nodes, parent, depth, from + 1)) {
      var r := ListedHasChain(nodes, parent, depth, from + 1, m);
      OneClimb(nodes, central, parent, q, p + [c], r);
    }
  }

  /** What is listed below the child at position from. */
  function ListedBelow(nodes: seq<PlanningNode>, depth: nat, from: nat): seq<MacAddress>
    requires from < |nodes|
  {
    if depth > 0 then Listing(ChildTrees(nodes, nodes[from].mac, depth - 1, 0)) else []
  }

  lemma ListingOfChild(nodes: seq<PlanningNode>, parent: MacAddress, depth: nat, from: nat)
    requires from < |nodes| && !nodes[from].isCentral && nodes[from].parent == parent
    ensures Listing(ChildTrees(nodes, parent, depth, from)) ==
            [nodes[from].mac] + (ListedBelow(nodes, depth, from) + Listing(ChildTrees(nodes, parent, depth, from + 1)))
  {
    assert ChildTrees(nodes, parent, depth, from)[1..] == ChildTrees(nodes, parent, depth, from + 1);
  }

  lemma ChildListedOnce(nodes: seq<PlanningNode>, central: MacAddress, parent: MacAddress, q: seq<MacAddress>,
                        depth: nat, from: nat)
    requires ChildAt(nodes, central, parent, q, from)
    requires NoRepeats(ListedBelow(nodes, depth, from))
    requires NoRepeats(Listing(ChildTrees(nodes, parent, depth, from + 1)))
    ensures NoRepeats(Listing(ChildTrees(nodes, parent, depth, from)))
  {
    var below, rest := ListedBelow(nodes, depth, from), Listing(ChildTrees(nodes, parent, depth, from + 1));
    forall m | m in below ensures m != nodes[from].mac && m !in rest {
      BelowNotListedElsewhere(nodes, central, parent, q, depth, from, m);
    }
    ChildNotListedLater(nodes, central, parent, q, depth, from);
    NoRepeatsConcat(below, rest);
    NoRepeatsConcat([nodes[from].mac], below + rest);
    ListingOfChild(nodes, parent, depth, from);
  }

  lemma {:induction false} ListedOnce(nodes: seq<PlanningNode>, central: MacAddress, parent: MacAddress,
                                      q: seq<MacAddress>, depth: nat, from: nat)
    requires Rooted(nodes, central) && Above(nodes, central, parent, q) && from <= |nodes|
    ensures NoRepeats(Listing(ChildTrees(nodes, parent, depth, from)))
    decreases depth, |nodes| - from
  {
    if from < |nodes| {
      ListedOnce(nodes, central, parent, q, depth, from + 1);
      if !nodes[from].isCentral && nodes[from].parent == parent {
        var c := nodes[from].mac;
        ChildHangsAbove(nodes, central, parent, q, from);
        if depth > 0 { ListedOnce(nodes, central, c, [c] + q, depth - 1, 0); }
        ChildListedOnce(nodes, central, parent, q, depth, from);
      }
    }
  }

  /**
   * The tree view shows a Node exactly when its parent pointers lead to Central, and shows it once; Nodes on cycles
   * never appear.
   */
  lemma TreeListsExactlyTheRouted(nodes: seq<PlanningNode>, central: MacAddress)
    requires Rooted(nodes, central)
    ensures var shown := Listing(ChildTrees(nodes, central, |nodes|, 0));
            && NoRepeats(shown)
            && forall m :: m in shown <==> exists p :: RoutePath(nodes, central, p) && p[0] == m
  {
    ListedOnce(nodes, central, central, [], |nodes|, 0);
    forall m ensures m in Listing(ChildTrees(nodes, central, |nodes|, 0))
                     <==> exists p :: RoutePath(nodes, central, p) && p[0] == m
    {
      if m in Listing(ChildTrees(nodes, central, |nodes|, 0)) {
        var p := ListedHasChain(nodes, central, |nodes|, 0, m);
        ChainsAreRoutePaths(nodes, central, p);
      }
      forall p | RoutePath(nodes, central, p) && p[0] == m
        ensures m in Listing(ChildTrees(nodes, central, |nodes|, 0))
      {
        ChainsAreRoutePaths(nodes, central, p);
        RoutePathShort(nodes, central, p);
        ChainIsListed(nodes, central, |nodes|, 0, p);
      }
    }
  }

  lemma SameBelow(nodes: seq<PlanningNode>, parent: MacAddress, depth: nat, more: nat, from: nat)
    requires from < |nodes| && !nodes[from].isCentral && nodes[from].parent == parent && depth > 0 && more > 0
    requires ChildTrees(nodes, nodes[from].mac, depth - 1, 0) == ChildTrees(nodes, nodes[from].mac, more - 1, 0)
    requires ChildTrees(nodes, parent, depth, from + 1) == ChildTrees(nodes, parent, more, from + 1)
    ensures ChildTrees(nodes, parent, depth, from) == ChildTrees(nodes, parent, more, from)
  {
  }

  /** The depth budget never cuts a branch: any budget at least as large gives the same tree. */
  lemma {:induction false} DepthNeverCuts(nodes: seq<PlanningNode>, central: MacAddress, parent: MacAddress,
                                          q: seq<MacAddress>, depth: nat, more: nat, from: nat)
    requires Rooted(nodes, central) && Above(nodes, central, parent, q) && from <= |nodes|
    requires |nodes| <= depth + |q| && |nodes| <= more + |q|
    ensures ChildTrees(nodes, parent, depth, from) == ChildTrees(nodes, parent, more, from)
    decreases depth, |nodes| - from
  {
    if from < |nodes| {
      DepthNeverCuts(nodes, central, parent, q, depth, more, from + 1);
      if !nodes[from].isCentral && nodes[from].parent == parent {
        var c := nodes[from].mac;
        ChildHangsAbove(nodes, central, parent, q, from);
        DepthNeverCuts(nodes, central, c, [c] + q, depth - 1, more - 1, 0);
        SameBelow(nodes, parent, depth, more, from);
      }
    }
  }

  /**
   * A Node is shown under Central's child c exactly when the route to it starts at c, so the tree and the next hop
   * agree.
   */
  lemma BranchIsNextHop(nodes: seq<PlanningNode>, central: MacAddress, t: Tree, m: MacAddress)
    requires Rooted(nodes, central) && t in ChildTrees(nodes, central, |nodes|, 0)
    ensures m in Listing([t]) <==> exists p :: RoutePath(nodes, central, p) && p[0] == m && p[|p| - 1] == t.mac
  {
    var i := TopTree(nodes, central, 0, t);
    IndexOfOwnMac(nodes, i);
    assert Listing([t]) == [t.mac] + Listing(t.children);
    assert RoutePath(nodes, central, [t.mac]);
    if m in Listing(t.children) { var p := RouteThrough(nodes, central, t, m); }
    forall p | RoutePath(nodes, central, p) && p[0] == m && p[|p| - 1] == t.mac ensures m in Listing([t]) {
      RoutePathShort(nodes, central, p);
      if |p| > 1 { PathBelow(nodes, central, t.mac, p); }
    }
  }

  lemma RouteThrough(nodes: seq<PlanningNode>, central: MacAddress, t: Tree, m: MacAddress) returns (p: seq<MacAddress>)
    requires Rooted(nodes, central) && RoutePath(nodes, central, [t.mac])
    requires t.children == ChildTrees(nodes, t.mac, |nodes| - 1, 0) && m in Listing(t.children)
    ensures RoutePath(nodes, central, p) && p[0] == m && p[|p| - 1] == t.mac
  {
    var q := ListedHasChain(nodes, t.mac, |nodes| - 1, 0, m);
    ChainsAreRoutePaths(nodes, central, [t.mac]);
    ChainExtends(nodes, central, t.mac, q, [t.mac]);
    p := q + [t.mac];
  }

  lemma PathBelow(nodes: seq<PlanningNode>, central: MacAddress, c: MacAddress, p: seq<MacAddress>)
    requires Rooted(nodes, central) && RoutePath(nodes, central, p) && 1 < |p| <= |nodes| && p[|p| - 1] == c
    ensures p[0] in Listing(ChildTrees(nodes, c, |nodes| - 1, 0))
  {
    var q := p[..|p| - 1];
    assert Link(nodes, p[|q| - 1], p[|q|]);
    assert forall i | 0 <= i < |q| :: q[i] == p[i];
    assert Chain(nodes, c, q);
    ChainIsListed(nodes, c, |nodes| - 1, 0, q);
  }

  lemma {:induction false} TopTree(nodes: seq<PlanningNode>, central: MacAddress, from: nat, t: Tree) returns (i: nat)
    requires from <= |nodes| && |nodes| > 0 && t in ChildTrees(nodes, central, |nodes|, from)
    ensures from <= i < |nodes| && !nodes[i].isCentral && nodes[i].parent == central
    ensures t == Tree(nodes[i].mac, ChildTrees(nodes, nodes[i].mac, |nodes| - 1, 0))
    decreases |nodes| - from
  {
    if t in ChildTrees(nodes, central, |nodes|, from + 1) {
      i := TopTree(nodes, central, from + 1, t);
    } else {
      i := from;
    }
  }

  /** Each tree stands under the parent its Node reported, at every level, and siblings stand in registry order. */
  ghost predicate Faithful(nodes: seq<PlanningNode>, parent: MacAddress, from: nat, trees: seq<Tree>)
    decreases trees
  {
    && (forall t <- trees ::
          && Link(nodes, t.mac, parent) && from <= IndexOfMac(nodes, t.mac)
          && Faithful(nodes, t.mac, 0, t.children))
    && (forall i, j | 0 <= i < j < |trees| :: IndexOfMac(nodes, trees[i].mac) < IndexOfMac(nodes, trees[j].mac))
  }

  /** In the tree view every Node hangs directly below the parent it reported. */
  lemma {:induction false} TreesAreFaithful(nodes: seq<PlanningNode>, parent: MacAddress, depth: nat, from: nat)
    requires DistinctMacs(nodes) && from <= |nodes|
    ensures Faithful(nodes, parent, from, ChildTrees(nodes, parent, depth, from))
    decreases depth, |nodes| - from
  {
    if from < |nodes| {
      var n, rest := nodes[from], ChildTrees(nodes, parent, depth, from + 1);
      TreesAreFaithful(nodes, parent, depth, from + 1);
      if n.isCentral || n.parent != parent {
        FaithfulFrom(nodes, parent, from, rest);
      } else {
        var below := if depth > 0 then ChildTrees(nodes, n.mac, depth - 1, 0) else [];
        if depth > 0 { TreesAreFaithful(nodes, n.mac, depth - 1, 0); }
        ChildAtFrom(nodes, parent, from, below, rest);
      }
    }
  }

  lemma FaithfulFrom(nodes: seq<PlanningNode>, parent: MacAddress, from: nat, rest: seq<Tree>)
    requires Faithful(nodes, parent, from + 1, rest)
    ensures Faithful(nodes, parent, from, rest)
  {
  }

  lemma ChildAtFrom(nodes: seq<PlanningNode>, parent: MacAddress, from: nat, below: seq<Tree>, rest: seq<Tree>)
    requires DistinctMacs(nodes) && from < |nodes| && !nodes[from].isCentral && nodes[from].parent == parent
    requires Faithful(nodes, nodes[from].mac, 0, below) && Faithful(nodes, parent, from + 1, rest)
    ensures Faithful(nodes, parent, from, [Tree(nodes[from].mac, below)] + rest)
  {
    IndexOfOwnMac(nodes, from);
    PutInFront(nodes, parent, from, Tree(nodes[from].mac, below), rest);
  }

  lemma PutInFront(nodes: seq<PlanningNode>, parent: MacAddress, from: nat, t: Tree, rest: seq<Tree>)
    requires Faithful(nodes, parent, from + 1, rest) && Faithful(nodes, t.mac, 0, t.children)
    requires Link(nodes, t.mac, parent) && IndexOfMac(nodes, t.mac) == from
    ensures Faithful(nodes, parent, from, [t] + rest)
  {
    var all := [t] + rest;
    forall x <- all ensures Link(nodes, x.mac, parent) && from <= IndexOfMac(nodes, x.mac) &&
                            Faithful(nodes, x.mac, 0, x.children) {
      assert x == t || x in rest;
    }
    forall i, j | 0 <= i < j < |all| ensures IndexOfMac(nodes, all[i].mac) < IndexOfMac(nodes, all[j].mac) {
      assert all[j] == rest[j - 1] && rest[j - 1] in rest;
      if i > 0 { assert all[i] == rest[i - 1]; }
    }
  }
}
