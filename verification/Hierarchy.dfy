/**
 The node tree store: the hierarchy assertion, the flattening walk, and the assembler
 that rebuilds a forest from flat rows.
 */
module Hierarchy {
  import opened Prelude
  import opened LegalNodes

  // ----- Lookup, ancestors and children in a flat list -----

  /** `byId.get(id)` for a map built by inserting the rows in order: the last one wins. */
  function Lookup(flat: seq<FlatNode>, id: string): (r: Option<FlatNode>)
    ensures r.Some? ==> r.value in flat && r.value.id == id
    ensures r.None? ==> forall i :: 0 <= i < |flat| ==> flat[i].id != id
    decreases |flat|
  {
    if flat == [] then None
    else if flat[|flat| - 1].id == id then Some(flat[|flat| - 1])
    else Lookup(flat[..|flat| - 1], id)
  }

  lemma LookupUnique(flat: seq<FlatNode>, n: FlatNode)
    requires UniqueIds(flat) && n in flat
    ensures Lookup(flat, n.id) == Some(n)
  {
  }

  /** The row that a node's `parentId` resolves to. */
  function Up(flat: seq<FlatNode>, n: FlatNode): (r: Option<FlatNode>)
    ensures r.Some? ==> r.value in flat && n.parentId == Some(r.value.id) && r.value.id != ""
  {
    if Truthy(n.parentId) then Lookup(flat, n.parentId.value) else None
  }

  /** The k-th ancestor, if the chain is that long. */
  function Ancestor(flat: seq<FlatNode>, n: FlatNode, k: nat): (r: Option<FlatNode>)
    ensures r.Some? && k > 0 ==> r.value in flat
    decreases k
  {
    if k == 0 then Some(n)
    else match Ancestor(flat, n, k - 1)
      case None => None
      case Some(m) => Up(flat, m)
  }

  /** The chain of parents of `n` never comes to an end. */
  ghost predicate Endless(flat: seq<FlatNode>, n: FlatNode) {
    forall k: nat :: Ancestor(flat, n, k).Some?
  }

  /** Rows attached under `id`, in list order. */
  function Kids(flat: seq<FlatNode>, id: string): (r: seq<FlatNode>)
    decreases |flat|
  {
    if flat == [] then []
    else (if Truthy(flat[0].parentId) && flat[0].parentId.value == id then [flat[0]] else [])
         + Kids(flat[1..], id)
  }

  /** Rows whose parent does not resolve in `all`, in list order. */
  function Roots(all: seq<FlatNode>, flat: seq<FlatNode>): (r: seq<FlatNode>)
    decreases |flat|
  {
    if flat == [] then []
    else (if Up(all, flat[0]).None? then [flat[0]] else []) + Roots(all, flat[1..])
  }

  lemma {:induction false} KidsConcat(a: seq<FlatNode>, b: seq<FlatNode>, id: string)
    ensures Kids(a + b, id) == Kids(a, id) + Kids(b, id)
    decreases |a|
  {
    if a == [] {
      assert a + b == b;
    } else {
      assert (a + b)[1..] == a[1..] + b;
      KidsConcat(a[1..], b, id);
    }
  }

  lemma {:induction false} RootsConcat(all: seq<FlatNode>, a: seq<FlatNode>, b: seq<FlatNode>)
    ensures Roots(all, a + b) == Roots(all, a) + Roots(all, b)
    decreases |a|
  {
    if a == [] {
      assert a + b == b;
    } else {
      assert (a + b)[1..] == a[1..] + b;
      RootsConcat(all, a[1..], b);
    }
  }

  lemma {:induction false} KidsCount(flat: seq<FlatNode>, id: string, x: FlatNode)
    ensures Count(Kids(flat, id), x) ==
            if Truthy(x.parentId) && x.parentId.value == id then Count(flat, x) else 0
    decreases |flat|
  {
    if flat == [] {
    } else {
      assert flat == [flat[0]] + flat[1..];
      KidsCount(flat[1..], id, x);
    }
  }

  lemma {:induction false} RootsCount(all: seq<FlatNode>, flat: seq<FlatNode>, x: FlatNode)
    ensures Count(Roots(all, flat), x) == if Up(all, x).None? then Count(flat, x) else 0
    decreases |flat|
  {
    if flat == [] {
    } else {
      assert flat == [flat[0]] + flat[1..];
      RootsCount(all, flat[1..], x);
    }
  }

  // ----- Ancestor chains -----

  lemma {:induction false} AncestorSplit(flat: seq<FlatNode>, n: FlatNode, i: nat, m: nat)
    ensures Ancestor(flat, n, i).None? ==> Ancestor(flat, n, i + m).None?
    ensures Ancestor(flat, n, i).Some? ==>
              Ancestor(flat, n, i + m) == Ancestor(flat, Ancestor(flat, n, i).value, m)
    decreases m
  {
    if m > 0 {
      AncestorSplit(flat, n, i, m - 1);
    }
  }

  /** A node that is its own p-th ancestor has ancestors at every distance. */
  lemma {:induction false} PeriodicNeverEnds(flat: seq<FlatNode>, n: FlatNode, p: nat, k: nat)
    requires p > 0 && Ancestor(flat, n, p) == Some(n)
    ensures Ancestor(flat, n, k).Some?
    decreases k
  {
    if k < p {
      AncestorSplit(flat, n, k, p - k);
    } else {
      AncestorSplit(flat, n, p, k - p);
      PeriodicNeverEnds(flat, n, p, k - p);
    }
  }

  lemma {:induction false} RepeatIsEndless(flat: seq<FlatNode>, n: FlatNode, i: nat, j: nat)
    requires i < j && Ancestor(flat, n, i).Some? && Ancestor(flat, n, i) == Ancestor(flat, n, j)
    ensures Endless(flat, n)
  {
    var a := Ancestor(flat, n, i).value;
    AncestorSplit(flat, n, i, j - i);
    forall k: nat
      ensures Ancestor(flat, n, k).Some?
    {
      if k < i {
        AncestorSplit(flat, n, k, i - k);
      } else {
        PeriodicNeverEnds(flat, a, j - i, k - i);
        AncestorSplit(flat, n, i, k - i);
      }
    }
  }

  function Chain(flat: seq<FlatNode>, n: FlatNode, k: nat): (r: seq<string>)
    requires Ancestor(flat, n, k).Some?
    ensures |r| == k + 1 && forall i :: 0 <= i <= k ==>
              Ancestor(flat, n, i).Some? && r[i] == Ancestor(flat, n, i).value.id
    decreases k
  {
    (if k == 0 then [] else Chain(flat, n, k - 1)) + [Ancestor(flat, n, k).value.id]
  }

  lemma SameIdSameNode(flat: seq<FlatNode>, a: FlatNode, b: FlatNode)
    requires UniqueIds(flat) && a in flat && b in flat && a.id == b.id
    ensures a == b
  {
  }

  /** A chain that ends has no repeated id, so it is shorter than the list. */
  lemma {:induction false} FiniteChainBound(flat: seq<FlatNode>, n: FlatNode, k: nat)
    requires UniqueIds(flat) && n in flat
    requires !Endless(flat, n) && Ancestor(flat, n, k).Some?
    ensures k < |flat|
  {
    var c := Chain(flat, n, k);
    forall i, j | 0 <= i < j < |c|
      ensures c[i] != c[j]
    {
      if c[i] == c[j] {
        SameIdSameNode(flat, Ancestor(flat, n, i).value, Ancestor(flat, n, j).value);
        RepeatIsEndless(flat, n, i, j);
      }
    }
    var pool := set m | m in flat :: m.id;
    assert forall x :: x in c ==> x in pool;
    Pigeonhole(c, pool);
    PoolSize(flat);
  }

  lemma {:induction false} PoolSize(flat: seq<FlatNode>)
    ensures |set m | m in flat :: m.id| <= |flat|
    decreases |flat|
  {
    if flat == [] {
      assert (set m | m in flat :: m.id) == {};
    } else {
      PoolSize(flat[1..]);
      assert (set m | m in flat :: m.id) == {flat[0].id} + (set m | m in flat[1..] :: m.id);
    }
  }

  lemma {:induction false} EndlessUp(flat: seq<FlatNode>, n: FlatNode)
    requires Up(flat, n).Some?
    ensures Endless(flat, n) <==> Endless(flat, Up(flat, n).value)
  {
    var p := Up(flat, n).value;
    assert Ancestor(flat, n, 1) == Some(p) by {
      assert Ancestor(flat, n, 0) == Some(n);
    }
    forall k: nat
      ensures Ancestor(flat, n, k + 1) == Ancestor(flat, p, k)
    {
      AncestorSplit(flat, n, 1, k);
    }
    if Endless(flat, p) {
      forall k: nat
        ensures Ancestor(flat, n, k).Some?
      {
        if k > 0 {
          assert Ancestor(flat, n, (k - 1) + 1) == Ancestor(flat, p, k - 1);
        }
      }
    }
    if Endless(flat, n) {
      forall k: nat
        ensures Ancestor(flat, p, k).Some?
      {
        assert Ancestor(flat, n, k + 1).Some?;
      }
    }
  }

  lemma RootNotEndless(flat: seq<FlatNode>, n: FlatNode)
    requires Up(flat, n).None?
    ensures !Endless(flat, n)
  {
    assert Ancestor(flat, n, 0) == Some(n);
    assert Ancestor(flat, n, 1).None?;
  }

  // ----- What it means for a tree to be the assembly of a flat list -----

  ghost predicate Matches(flat: seq<FlatNode>, t: Tree)
    decreases t
  {
    t.node in flat && Heads(t.children) == Kids(flat, t.node.id) &&
    forall i :: 0 <= i < |t.children| ==> Matches(flat, t.children[i])
  }

  ghost predicate MatchesForest(flat: seq<FlatNode>, ts: seq<Tree>) {
    Heads(ts) == Roots(flat, flat) && forall i :: 0 <= i < |ts| ==> Matches(flat, ts[i])
  }

  function ParentCount(flat: seq<FlatNode>, x: FlatNode, listing: seq<FlatNode>): (r: nat) {
    match Up(flat, x)
    case None => 0
    case Some(p) => Count(listing, p)
  }

  /**
   Each occurrence of a row below the root of a matching tree comes from exactly one
   occurrence of its parent.
   */
  lemma {:induction false} CountInTree(flat: seq<FlatNode>, t: Tree, x: FlatNode)
    requires UniqueIds(flat) && Matches(flat, t) && x in flat
    ensures Count(Flatten(t), x) ==
            (if t.node == x then 1 else 0) + ParentCount(flat, x, Flatten(t))
    decreases t, 0
  {
    CountInForest(flat, t.children, x);
    KidsCount(flat, t.node.id, x);
    NoRepeatsCount(flat, x);
    LookupUnique(flat, t.node);
    assert Heads(t.children) == Kids(flat, t.node.id);
    if Up(flat, x) == Some(t.node) {
    } else if Up(flat, x).Some? {
      SameIdFromUp(flat, x, t.node);
    }
  }

  lemma SameIdFromUp(flat: seq<FlatNode>, x: FlatNode, n: FlatNode)
    requires UniqueIds(flat) && n in flat && Up(flat, x).Some? && Up(flat, x).value != n
    ensures x.parentId != Some(n.id)
  {
    if x.parentId == Some(n.id) {
      LookupUnique(flat, n);
    }
  }

  lemma {:induction false} CountInForest(flat: seq<FlatNode>, ts: seq<Tree>, x: FlatNode)
    requires UniqueIds(flat) && x in flat
    requires forall i :: 0 <= i < |ts| ==> Matches(flat, ts[i])
    ensures Count(FlattenAll(ts), x) ==
            Count(Heads(ts), x) + ParentCount(flat, x, FlattenAll(ts))
    decreases ts, 1
  {
    if ts == [] {
    } else {
      assert forall i :: 0 <= i < |ts[1..]| ==> ts[1..][i] == ts[i + 1];
      CountInTree(flat, ts[0], x);
      CountInForest(flat, ts[1..], x);
      assert Heads(ts) == [ts[0].node] + Heads(ts[1..]);
      CountConcat([ts[0].node], Heads(ts[1..]), x);
      CountConcat(Flatten(ts[0]), FlattenAll(ts[1..]), x);
      if Up(flat, x).Some? {
        CountConcat(Flatten(ts[0]), FlattenAll(ts[1..]), Up(flat, x).value);
      }
    }
  }

  lemma {:induction false} MatchedNodesEnd(flat: seq<FlatNode>, t: Tree, x: FlatNode)
    requires UniqueIds(flat) && Matches(flat, t) && !Endless(flat, t.node) && x in Flatten(t)
    ensures x in flat && !Endless(flat, x)
    decreases t
  {
    if x != t.node {
      var i := MemberTree(t.children, x);
      var c := t.children[i];
      assert c.node == Heads(t.children)[i];
      KidsParent(flat, t.node, c.node);
      EndlessUp(flat, c.node);
      MatchedNodesEnd(flat, c, x);
    }
  }

  lemma {:induction false} MemberTree(ts: seq<Tree>, x: FlatNode) returns (i: nat)
    requires x in FlattenAll(ts)
    ensures i < |ts| && x in Flatten(ts[i])
    decreases |ts|
  {
    if x in Flatten(ts[0]) {
      i := 0;
    } else {
      i := MemberTree(ts[1..], x);
      i := i + 1;
    }
  }

  lemma KidsParent(flat: seq<FlatNode>, n: FlatNode, c: FlatNode)
    requires UniqueIds(flat) && n in flat && c in Kids(flat, n.id)
    ensures c in flat && Up(flat, c) == Some(n)
  {
    CountPositive(Kids(flat, n.id), c);
    KidsCount(flat, n.id, c);
    CountPositive(flat, c);
    LookupUnique(flat, n);
  }

  /**
   Flattening an assembled forest lists every row whose ancestor chain ends exactly once,
   and no row whose chain is endless.
   */
  lemma {:induction false} AssemblyCounts(flat: seq<FlatNode>, ts: seq<Tree>, x: FlatNode)
    requires UniqueIds(flat) && MatchesForest(flat, ts) && x in flat
    ensures Count(FlattenAll(ts), x) == if Endless(flat, x) then 0 else 1
  {
    if Endless(flat, x) {
      if x in FlattenAll(ts) {
        var i := MemberTree(ts, x);
        RootHead(flat, ts, i);
        MatchedNodesEnd(flat, ts[i], x);
      }
      CountPositive(FlattenAll(ts), x);
    } else {
      var k :| k >= 0 && Ancestor(flat, x, k).None?;
      FiniteCountsOne(flat, ts, x, k);
    }
  }

  lemma RootHead(flat: seq<FlatNode>, ts: seq<Tree>, i: nat)
    requires Heads(ts) == Roots(flat, flat) && i < |ts|
    ensures !Endless(flat, ts[i].node)
  {
    assert Heads(ts)[i] == ts[i].node;
    CountPositive(Roots(flat, flat), ts[i].node);
    RootsCount(flat, flat, ts[i].node);
    RootNotEndless(flat, ts[i].node);
  }

  /** A root is listed once; any other row is listed as often as its parent. */
  lemma ForestEquation(flat: seq<FlatNode>, ts: seq<Tree>, x: FlatNode)
    requires UniqueIds(flat) && MatchesForest(flat, ts) && x in flat
    ensures Count(FlattenAll(ts), x) ==
            match Up(flat, x) case None => 1 case Some(p) => Count(FlattenAll(ts), p)
  {
    CountInForest(flat, ts, x);
    RootsCount(flat, flat, x);
    NoRepeatsCount(flat, x);
  }

  lemma {:induction false} FiniteCountsOne(flat: seq<FlatNode>, ts: seq<Tree>, x: FlatNode, k: nat)
    requires UniqueIds(flat) && MatchesForest(flat, ts) && x in flat
    requires Ancestor(flat, x, k).None?
    ensures Count(FlattenAll(ts), x) == 1
    decreases k
  {
    ForestEquation(flat, ts, x);
    var up := Up(flat, x);
    if up.Some? {
      AncestorFromUp(flat, x, k);
      FiniteCountsOne(flat, ts, up.value, k - 1);
    }
  }

  lemma AncestorFromUp(flat: seq<FlatNode>, x: FlatNode, k: nat)
    requires Up(flat, x).Some? && Ancestor(flat, x, k).None?
    ensures k > 0 && Ancestor(flat, Up(flat, x).value, k - 1).None?
  {
    assert Ancestor(flat, x, 0) == Some(x) && Ancestor(flat, x, 1) == Up(flat, x);
    AncestorSplit(flat, x, 1, k - 1);
  }

  /**
   Flatten after assemble is a permutation of the list minus exactly the rows whose
   ancestor chain never ends.
   */
  lemma FlattenOfAssembly(flat: seq<FlatNode>, ts: seq<Tree>)
    requires UniqueIds(flat) && MatchesForest(flat, ts)
    ensures forall x :: Count(FlattenAll(ts), x) == if x in flat && !Endless(flat, x) then 1 else 0
    ensures forall x :: x in FlattenAll(ts) <==> x in flat && !Endless(flat, x)
    ensures NoRepeats(FlattenAll(ts))
  {
    var all := FlattenAll(ts);
    forall x
      ensures Count(all, x) == if x in flat && !Endless(flat, x) then 1 else 0
      ensures x in all <==> x in flat && !Endless(flat, x)
    {
      CountPositive(all, x);
      if x in flat {
        AssemblyCounts(flat, ts, x);
      } else if x in all {
        var i := MemberTree(ts, x);
        RootHead(flat, ts, i);
        MatchedNodesEnd(flat, ts[i], x);
      }
    }
    CountsNoRepeats(all);
  }

  // ----- The forest that the assembler builds -----

  function BuildTree(flat: seq<FlatNode>, n: FlatNode, fuel: nat): (r: Tree)
    decreases fuel, 0, 0
  {
    Tree(n, if fuel == 0 then [] else BuildAll(flat, Kids(flat, n.id), fuel - 1))
  }

  function BuildAll(flat: seq<FlatNode>, ns: seq<FlatNode>, fuel: nat): (r: seq<Tree>)
    ensures |r| == |ns|
    decreases fuel, 1, |ns|
  {
    if ns == [] then [] else [BuildTree(flat, ns[0], fuel)] + BuildAll(flat, ns[1..], fuel)
  }

  lemma {:induction false} BuildAllAt(flat: seq<FlatNode>, ns: seq<FlatNode>, fuel: nat, i: nat)
    requires i < |ns|
    ensures BuildAll(flat, ns, fuel)[i] == BuildTree(flat, ns[i], fuel)
    decreases |ns|
  {
    if i > 0 {
      BuildAllAt(flat, ns[1..], fuel, i - 1);
    }
  }

  lemma BuildAllHeads(flat: seq<FlatNode>, ns: seq<FlatNode>, fuel: nat)
    ensures Heads(BuildAll(flat, ns, fuel)) == ns
  {
    forall i | 0 <= i < |ns|
      ensures Heads(BuildAll(flat, ns, fuel))[i] == ns[i]
    {
      BuildAllAt(flat, ns, fuel, i);
    }
  }

  /** The forest over the roots; `AssemblyMatches` shows that |flat| levels are enough. */
  function AssembleForest(flat: seq<FlatNode>): (r: seq<Tree>) {
    BuildAll(flat, Roots(flat, flat), |flat|)
  }

  /** `n` is a row with a finite chain of at least `depth` ancestors. */
  ghost predicate AtDepth(flat: seq<FlatNode>, n: FlatNode, depth: nat) {
    n in flat && !Endless(flat, n) && Ancestor(flat, n, depth).Some?
  }

  /** Every row of `ns` has a finite chain of at least `depth` ancestors. */
  ghost predicate AllAtDepth(flat: seq<FlatNode>, ns: seq<FlatNode>, depth: nat) {
    forall i :: 0 <= i < |ns| ==> AtDepth(flat, ns[i], depth)
  }

  lemma KidDepth(flat: seq<FlatNode>, n: FlatNode, c: FlatNode, depth: nat)
    requires UniqueIds(flat) && AtDepth(flat, n, depth) && c in flat && Up(flat, c) == Some(n)
    ensures AtDepth(flat, c, depth + 1) && depth + 1 < |flat|
  {
    EndlessUp(flat, c);
    assert Ancestor(flat, c, 0) == Some(c) && Ancestor(flat, c, 1) == Some(n);
    AncestorSplit(flat, c, 1, depth);
    FiniteChainBound(flat, c, depth + 1);
  }

  lemma KidsDepth(flat: seq<FlatNode>, n: FlatNode, kids: seq<FlatNode>, depth: nat)
    requires UniqueIds(flat) && AtDepth(flat, n, depth) && kids == Kids(flat, n.id)
    ensures AllAtDepth(flat, kids, depth + 1)
    ensures kids != [] ==> depth + 1 < |flat|
  {
    forall i | 0 <= i < |kids|
      ensures AtDepth(flat, kids[i], depth + 1) && depth + 1 < |flat|
    {
      KidsParent(flat, n, kids[i]);
      KidDepth(flat, n, kids[i], depth);
    }
    assert kids != [] ==> AtDepth(flat, kids[0], depth + 1) && depth + 1 < |flat|;
  }

  lemma {:induction false} BuildMatches(flat: seq<FlatNode>, n: FlatNode, depth: nat, fuel: nat)
    requires UniqueIds(flat) && AtDepth(flat, n, depth) && depth + fuel + 1 >= |flat|
    ensures Matches(flat, BuildTree(flat, n, fuel))
    decreases fuel, 0, 0
  {
    var kids := Kids(flat, n.id);
    KidsDepth(flat, n, kids, depth);
    if fuel > 0 {
      BuildAllMatch(flat, kids, depth + 1, fuel - 1);
    }
    BuildNode(flat, n, kids, fuel);
  }

  ghost predicate MatchesAll(flat: seq<FlatNode>, ts: seq<Tree>) {
    forall i :: 0 <= i < |ts| ==> Matches(flat, ts[i])
  }

  lemma BuildNode(flat: seq<FlatNode>, n: FlatNode, kids: seq<FlatNode>, fuel: nat)
    requires n in flat && kids == Kids(flat, n.id)
    requires if fuel == 0 then kids == [] else MatchesAll(flat, BuildAll(flat, kids, fuel - 1))
    ensures Matches(flat, BuildTree(flat, n, fuel))
  {
    if fuel == 0 {
      assert Heads([]) == kids;
    } else {
      BuildAllHeads(flat, kids, fuel - 1);
    }
  }

  lemma {:induction false} BuildAllMatch(flat: seq<FlatNode>, ns: seq<FlatNode>, depth: nat, fuel: nat)
    requires UniqueIds(flat) && AllAtDepth(flat, ns, depth) && depth + fuel + 1 >= |flat|
    ensures MatchesAll(flat, BuildAll(flat, ns, fuel))
    decreases fuel, 1, |ns|
  {
    if ns != [] {
      BuildMatches(flat, ns[0], depth, fuel);
      BuildAllMatch(flat, ns[1..], depth, fuel);
    }
  }

  lemma AssemblyMatches(flat: seq<FlatNode>)
    requires UniqueIds(flat)
    ensures MatchesForest(flat, AssembleForest(flat))
  {
    var roots := Roots(flat, flat);
    forall i | 0 <= i < |roots|
      ensures AtDepth(flat, roots[i], 0)
    {
      CountPositive(roots, roots[i]);
      RootsCount(flat, flat, roots[i]);
      CountPositive(flat, roots[i]);
      RootNotEndless(flat, roots[i]);
    }
    BuildAllMatch(flat, roots, 0, |flat|);
    BuildAllHeads(flat, roots, |flat|);
  }

  lemma {:induction false} MatchesUnique(flat: seq<FlatNode>, a: Tree, b: Tree)
    requires Matches(flat, a) && Matches(flat, b) && a.node == b.node
    ensures a == b
    decreases a
  {
    assert |a.children| == |Heads(a.children)| == |Heads(b.children)| == |b.children|;
    forall i | 0 <= i < |a.children|
      ensures a.children[i] == b.children[i]
    {
      assert a.children[i].node == Heads(a.children)[i] == Heads(b.children)[i];
      MatchesUnique(flat, a.children[i], b.children[i]);
    }
  }

  // ----- Round trip -----

  ghost predicate ParentsAgree(t: Tree, parent: Option<string>)
    decreases t
  {
    t.node.parentId == parent && ParentsAgreeAll(t.children, Some(t.node.id))
  }

  /** Every `parentId` names the actual parent in the tree. */
  ghost predicate ParentsAgreeAll(ts: seq<Tree>, parent: Option<string>)
    decreases ts
  {
    ts == [] || (ParentsAgree(ts[0], parent) && ParentsAgreeAll(ts[1..], parent))
  }

  ghost function IdSet(nodes: seq<FlatNode>): (r: set<string>) {
    set m | m in nodes :: m.id
  }

  lemma IdSetConcat(a: seq<FlatNode>, b: seq<FlatNode>)
    ensures IdSet(a + b) == IdSet(a) + IdSet(b)
  {
    assert forall m :: m in a + b <==> m in a || m in b;
  }

  lemma {:induction false} ParentInside(ts: seq<Tree>, parent: Option<string>, m: FlatNode)
    requires ParentsAgreeAll(ts, parent) && m in FlattenAll(ts)
    ensures m.parentId == parent || (m.parentId.Some? && m.parentId.value in IdSet(FlattenAll(ts)))
    decreases ts
  {
    IdSetConcat(Flatten(ts[0]), FlattenAll(ts[1..]));
    if m in FlattenAll(ts[1..]) {
      ParentInside(ts[1..], parent, m);
    } else if m != ts[0].node {
      IdSetConcat([ts[0].node], FlattenAll(ts[0].children));
      ParentInside(ts[0].children, Some(ts[0].node.id), m);
      assert ts[0].node in Flatten(ts[0]);
    }
  }

  lemma {:induction false} NoKids(nodes: seq<FlatNode>, id: string)
    requires forall m :: m in nodes ==> m.parentId != Some(id)
    ensures Kids(nodes, id) == []
    decreases |nodes|
  {
    if nodes != [] {
      NoKids(nodes[1..], id);
    }
  }

  /** Seen from outside a forest, only its heads hang under the forest's parent. */
  lemma {:induction false} KidsOutside(ts: seq<Tree>, id: string)
    requires ParentsAgreeAll(ts, Some(id)) && id != "" && id !in IdSet(FlattenAll(ts))
    ensures Kids(FlattenAll(ts), id) == Heads(ts)
    decreases ts
  {
    if ts != [] {
      var rest := FlattenAll(ts[1..]);
      var below := FlattenAll(ts[0].children);
      IdSetConcat(Flatten(ts[0]), rest);
      IdSetConcat([ts[0].node], below);
      assert ts[0].node.id in IdSet([ts[0].node]) by { assert ts[0].node in [ts[0].node]; }
      forall m | m in below
        ensures m.parentId != Some(id)
      {
        ParentInside(ts[0].children, Some(ts[0].node.id), m);
      }
      NoKids(below, id);
      KidsConcat([ts[0].node], below, id);
      KidsConcat(Flatten(ts[0]), rest, id);
      KidsOutside(ts[1..], id);
      assert Heads(ts) == [ts[0].node] + Heads(ts[1..]);
    }
  }

  lemma DisjointParts(a: seq<FlatNode>, b: seq<FlatNode>)
    requires UniqueIds(a + b)
    ensures UniqueIds(a) && UniqueIds(b) && IdSet(a) !! IdSet(b)
  {
    forall i, j | 0 <= i < j < |a|
      ensures a[i].id != a[j].id
    {
      assert (a + b)[i] == a[i] && (a + b)[j] == a[j];
    }
    forall i, j | 0 <= i < j < |b|
      ensures b[i].id != b[j].id
    {
      assert (a + b)[|a| + i] == b[i] && (a + b)[|a| + j] == b[j];
    }
    forall i, j | 0 <= i < |a| && 0 <= j < |b|
      ensures a[i].id != b[j].id
    {
      assert (a + b)[i] == a[i] && (a + b)[|a| + j] == b[j];
    }
  }

  lemma {:induction false} ForestMatchesWithin(
      flat: seq<FlatNode>, pre: seq<FlatNode>, ts: seq<Tree>, post: seq<FlatNode>, parent: Option<string>)
    requires flat == pre + FlattenAll(ts) + post
    requires UniqueIds(flat) && NoEmptyParents(flat) && ParentsAgreeAll(ts, parent)
    requires forall m :: m in pre || m in post ==>
               m.parentId.None? || m.parentId.value !in IdSet(FlattenAll(ts))
    requires parent.None? || parent.value !in IdSet(FlattenAll(ts))
    ensures forall i :: 0 <= i < |ts| ==> Matches(flat, ts[i])
    decreases ts
  {
    if ts != [] {
      var n := ts[0].node;
      var below := FlattenAll(ts[0].children);
      var rest := FlattenAll(ts[1..]);
      assert FlattenAll(ts) == [n] + below + rest;
      SplitIds(flat, pre, n, below, rest, post);
      forall m | m in rest
        ensures m.parentId != Some(n.id) && (m.parentId.None? || m.parentId.value !in IdSet(below))
      {
        ParentInside(ts[1..], parent, m);
      }
      forall m | m in below
        ensures m.parentId.None? || m.parentId.value !in IdSet(rest)
      {
        ParentInside(ts[0].children, Some(n.id), m);
      }
      assert Kids(flat, n.id) == Heads(ts[0].children) by {
        assert n in flat;
        if n.id == "" {
          ParentedByEmpty(flat, ts[0]);
        } else {
          NodeKids(flat, pre, ts[0], rest, post);
        }
      }
      assert flat == (pre + [n]) + below + (rest + post);
      ForestMatchesWithin(flat, pre + [n], ts[0].children, rest + post, Some(n.id));
      assert flat == (pre + Flatten(ts[0])) + rest + post;
      ForestMatchesWithin(flat, pre + Flatten(ts[0]), ts[1..], post, parent);
      assert n in flat;
      forall i | 0 <= i < |ts|
        ensures Matches(flat, ts[i])
      {
        if i > 0 {
          assert ts[i] == ts[1..][i - 1];
        }
      }
    }
  }

  lemma SplitIds(flat: seq<FlatNode>, pre: seq<FlatNode>, n: FlatNode, below: seq<FlatNode>,
                 rest: seq<FlatNode>, post: seq<FlatNode>)
    requires flat == pre + ([n] + below + rest) + post && UniqueIds(flat)
    ensures IdSet([n] + below + rest) == {n.id} + IdSet(below) + IdSet(rest)
    ensures n.id !in IdSet(below) && n.id !in IdSet(rest) && IdSet(below) !! IdSet(rest)
  {
    DisjointParts(pre + ([n] + below + rest), post);
    DisjointParts(pre, [n] + below + rest);
    DisjointParts([n] + below, rest);
    DisjointParts([n], below);
    IdSetConcat([n] + below, rest);
    IdSetConcat([n], below);
    assert IdSet([n]) == {n.id} by { assert n in [n]; }
  }

  /** Under an empty id nothing hangs, neither in the list nor, without empty parent ids, in the tree. */
  lemma ParentedByEmpty(flat: seq<FlatNode>, t: Tree)
    requires NoEmptyParents(flat) && t.node.id == "" && ParentsAgreeAll(t.children, Some(""))
    requires forall m :: m in FlattenAll(t.children) ==> m in flat
    ensures t.children == [] && Kids(flat, "") == []
  {
    FirstHasParent(t.children, Some(""));
    NoKids(flat, "");
  }

  lemma FirstHasParent(ts: seq<Tree>, parent: Option<string>)
    requires ParentsAgreeAll(ts, parent)
    ensures ts == [] || (ts[0].node in FlattenAll(ts) && ts[0].node.parentId == parent)
  {
    if ts != [] {
      assert ts[0].node in Flatten(ts[0]);
    }
  }

  lemma NodeKids(flat: seq<FlatNode>, pre: seq<FlatNode>, t: Tree, rest: seq<FlatNode>, post: seq<FlatNode>)
    requires flat == pre + ([t.node] + FlattenAll(t.children) + rest) + post
    requires t.node.id != "" && t.node.id !in IdSet(FlattenAll(t.children))
    requires ParentsAgreeAll(t.children, Some(t.node.id))
    requires forall m :: m in pre || m == t.node || m in rest || m in post ==> m.parentId != Some(t.node.id)
    ensures Kids(flat, t.node.id) == Heads(t.children)
  {
    var id := t.node.id;
    var below := FlattenAll(t.children);
    KidsOutside(t.children, id);
    NoKids(pre, id);
    NoKids([t.node], id);
    NoKids(rest, id);
    NoKids(post, id);
    KidsConcat([t.node], below, id);
    KidsConcat([t.node] + below, rest, id);
    KidsConcat(pre, [t.node] + below + rest, id);
    KidsConcat(pre + ([t.node] + below + rest), post, id);
  }

  lemma {:induction false} NoRoots(all: seq<FlatNode>, s: seq<FlatNode>)
    requires forall m :: m in s ==> Up(all, m).Some?
    ensures Roots(all, s) == []
    decreases |s|
  {
    if s != [] {
      NoRoots(all, s[1..]);
    }
  }

  lemma {:induction false} ForestRoots(all: seq<FlatNode>, ts: seq<Tree>)
    requires ParentsAgreeAll(ts, None) && NoEmptyParents(all)
    requires forall m :: m in FlattenAll(ts) ==> m in all
    ensures Roots(all, FlattenAll(ts)) == Heads(ts)
    decreases ts
  {
    if ts != [] {
      var n := ts[0].node;
      var below := FlattenAll(ts[0].children);
      assert FlattenAll(ts) == ([n] + below) + FlattenAll(ts[1..]);
      forall m | m in below
        ensures Up(all, m).Some?
      {
        ParentInside(ts[0].children, Some(n.id), m);
        assert n in FlattenAll(ts) && m in FlattenAll(ts) && m in all;
        var p :| p in FlattenAll(ts) && m.parentId == Some(p.id);
      }
      NoRoots(all, below);
      RootsConcat(all, [n], below);
      RootsConcat(all, [n] + below, FlattenAll(ts[1..]));
      ForestRoots(all, ts[1..]);
      assert Heads(ts) == [n] + Heads(ts[1..]);
    }
  }

  /** Assembling the flattened rows of an accepted forest gives that forest back. */
  lemma AssembleUndoesFlatten(ts: seq<Tree>)
    requires UniqueIds(FlattenAll(ts)) && NoEmptyParents(FlattenAll(ts)) && ParentsAgreeAll(ts, None)
    ensures AssembleForest(FlattenAll(ts)) == ts
  {
    var flat := FlattenAll(ts);
    assert flat == [] + flat + [];
    ForestMatchesWithin(flat, [], ts, [], None);
    ForestRoots(flat, ts);
    AssemblyMatches(flat);
    var built := AssembleForest(flat);
    assert |built| == |Heads(built)| == |Heads(ts)| == |ts|;
    forall i | 0 <= i < |ts|
      ensures built[i] == ts[i]
    {
      assert built[i].node == Heads(built)[i] == Heads(ts)[i] == ts[i].node;
      MatchesUnique(flat, built[i], ts[i]);
    }
  }

  /** The heads of a forest have no parent id. */
  lemma {:induction false} HeadsHaveNoParent(ts: seq<Tree>, i: nat)
    requires ParentsAgreeAll(ts, None) && i < |ts|
    ensures ts[i].node.parentId.None?
    decreases |ts|
  {
    if i > 0 {
      HeadsHaveNoParent(ts[1..], i - 1);
    }
  }

  /** A row with an empty parent id becomes a root. */
  lemma EmptyParentIsRoot(flat: seq<FlatNode>, n: FlatNode)
    requires n in flat && n.parentId == Some("")
    ensures n in Heads(AssembleForest(flat))
  {
    BuildAllHeads(flat, Roots(flat, flat), |flat|);
    CountPositive(flat, n);
    RootsCount(flat, flat, n);
    CountPositive(Roots(flat, flat), n);
  }

  /**
   For unique ids and agreeing parents, the round trip gives the forest back exactly when no row
   has the empty string for a parent id: such a row loses its parent.
   */
  lemma RoundTripExactly(ts: seq<Tree>)
    requires UniqueIds(FlattenAll(ts)) && ParentsAgreeAll(ts, None)
    ensures AssembleForest(FlattenAll(ts)) == ts <==> NoEmptyParents(FlattenAll(ts))
  {
    var flat := FlattenAll(ts);
    if NoEmptyParents(flat) {
      AssembleUndoesFlatten(ts);
    } else {
      var n :| n in flat && n.parentId == Some("");
      EmptyParentIsRoot(flat, n);
      if AssembleForest(flat) == ts {
        var i :| 0 <= i < |ts| && Heads(ts)[i] == n;
        HeadsHaveNoParent(ts, i);
      }
    }
  }

  /** A node with an empty id and one child: the child comes back as a second root. */
  lemma EmptyIdSplitsTree(root: FlatNode, child: FlatNode)
    requires root.id == "" && root.parentId.None? && child.id != "" && child.parentId == Some("")
    ensures var ts := [Tree(root, [Tree(child, [])])];
            UniqueIds(FlattenAll(ts)) && ParentsAgreeAll(ts, None) && AssembleForest(FlattenAll(ts)) != ts
  {
    var below := [Tree(child, [])];
    var ts := [Tree(root, below)];
    assert FlattenAll(below) == [child] by {
      assert Flatten(below[0]) == [child] + FlattenAll([]) && below[1..] == [];
    }
    assert FlattenAll(ts) == [root, child] by {
      assert Flatten(ts[0]) == [root] + FlattenAll(below) && ts[1..] == [];
    }
    assert ParentsAgreeAll(below, Some("")) by {
      assert ParentsAgree(below[0], Some("")) && below[1..] == [];
    }
    assert ParentsAgreeAll(ts, None) by {
      assert ParentsAgree(ts[0], None) && ts[1..] == [];
    }
    assert child in FlattenAll(ts);
    RoundTripExactly(ts);
  }
}
