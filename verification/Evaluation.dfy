/**
 The version structure audit: parent-type table, cycle detector and structure report.
 */
module Evaluation {
  import opened Prelude
  import opened LegalNodes
  import opened Hierarchy

  // ----- Parent types -----

  /** The allowed parent types of each node type; `None` means: must be a root. */
  function AllowedParents(child: NodeType): (r: Option<set<NodeType>>) {
    match child
    case DOCUMENT => None
    case BOOK => Some({DOCUMENT})
    case PART => Some({DOCUMENT, BOOK})
    case CHAPTER => Some({DOCUMENT, PART})
    case SECTION => Some({CHAPTER, PART, DOCUMENT})
    case ARTICLE => Some({DOCUMENT, CHAPTER, SECTION})
    case PARAGRAPH => Some({ARTICLE})
    case CLAUSE => Some({PARAGRAPH})
    case SUB_CLAUSE => Some({CLAUSE})
    case ANNEX => Some({DOCUMENT, CHAPTER})
  }

  predicate ParentTypeAllowed(child: NodeType, parent: Option<NodeType>) {
    match AllowedParents(child)
    case None => parent.None?
    case Some(allowed) => parent.Some? && parent.value in allowed
  }

  /** Height of a type in the hierarchy; the root type has rank 0. */
  function Rank(t: NodeType): (r: nat) {
    match t
    case DOCUMENT => 0
    case BOOK => 1
    case PART => 2
    case CHAPTER => 3
    case SECTION => 4
    case ARTICLE => 5
    case PARAGRAPH => 6
    case CLAUSE => 7
    case SUB_CLAUSE => 8
    case ANNEX => 4
  }

  lemma ParentHasLowerRank(child: NodeType, parent: NodeType)
    requires ParentTypeAllowed(child, Some(parent))
    ensures Rank(parent) < Rank(child) <= 8
  {
  }

  // ----- Cycle detection -----

  /** The k-th ancestor exists and has this id. */
  ghost predicate OnChain(flat: seq<FlatNode>, n: FlatNode, k: nat, id: string) {
    Ancestor(flat, n, k).Some? && Ancestor(flat, n, k).value.id == id
  }

  /** Seen ids are ids along the first `m` steps of the chain. */
  ghost predicate SeenUpTo(flat: seq<FlatNode>, n: FlatNode, seen: set<string>, m: nat) {
    forall id :: id in seen ==> exists k: nat :: k < m && OnChain(flat, n, k, id)
  }

  /** The inner walk of the detector: true when an id is met twice. */
  method ChainRepeats(flat: seq<FlatNode>, n: FlatNode) returns (repeats: bool)
    requires n in flat
    ensures Endless(flat, n) ==> repeats
    ensures UniqueIds(flat) ==> (repeats <==> Endless(flat, n))
  {
    var seen: set<string> := {};
    var current := Some(n);
    ghost var m: nat := 0;
    ghost var pool := set x | x in flat :: x.id;
    while current.Some? && Truthy(current.value.parentId)
      invariant current == Ancestor(flat, n, m)
      invariant current.Some? ==> current.value in flat
      invariant SeenUpTo(flat, n, seen, m)
      invariant seen <= pool
      decreases |pool - seen|
    {
      var c := current.value;
      assert c.id in pool;
      if c.id in seen {
        ghost var k: nat :| k < m && OnChain(flat, n, k, c.id);
        if UniqueIds(flat) {
          SameIdSameNode(flat, Ancestor(flat, n, k).value, c);
          RepeatIsEndless(flat, n, k, m);
        }
        return true;
      }
      assert pool - (seen + {c.id}) < pool - seen;
      SmallerSet(pool - (seen + {c.id}), pool - seen);
      SeenStep(flat, n, seen, m, c);
      seen := seen + {c.id};
      current := Lookup(flat, c.parentId.value);
      m := m + 1;
    }
    assert Ancestor(flat, n, m + 1).None?;
    return false;
  }

  lemma SmallerSet<T>(a: set<T>, b: set<T>)
    requires a < b
    ensures |a| < |b|
  {
    var x :| x in b && x !in a;
    assert b == a + (b - a) && a !! (b - a);
    assert x in b - a;
    assert |b| == |a| + |b - a|;
  }

  lemma SeenStep(flat: seq<FlatNode>, n: FlatNode, seen: set<string>, m: nat, c: FlatNode)
    requires SeenUpTo(flat, n, seen, m) && Ancestor(flat, n, m) == Some(c)
    ensures SeenUpTo(flat, n, seen + {c.id}, m + 1)
  {
    forall id | id in seen + {c.id}
      ensures exists k: nat :: k < m + 1 && OnChain(flat, n, k, id)
    {
      if id in seen {
        var k: nat :| k < m && OnChain(flat, n, k, id);
        assert k < m + 1;
      } else {
        assert OnChain(flat, n, m, id);
      }
    }
  }

  /** The detector lists each locator of a row with an endless chain, once, and nothing else. */
  method DetectCycles(flat: seq<FlatNode>) returns (cycles: seq<string>)
    ensures UniqueIds(flat) ==> ListsEndless(flat, |flat|, cycles)
    ensures NoRepeats(cycles)
  {
    cycles := [];
    for k := 0 to |flat|
      invariant NoRepeats(cycles)
      invariant UniqueIds(flat) ==> ListsEndless(flat, k, cycles)
    {
      var repeats := ChainRepeats(flat, flat[k]);
      if UniqueIds(flat) {
        ListsStep(flat, k, cycles);
      }
      if repeats && flat[k].sourceLocator !in cycles {
        cycles := cycles + [flat[k].sourceLocator];
      }
    }
  }

  /** Exactly the locators of those of the first `k` rows whose chain is endless. */
  ghost predicate ListsEndless(flat: seq<FlatNode>, k: nat, cycles: seq<string>)
    requires k <= |flat|
  {
    forall l :: l in cycles <==> exists i :: 0 <= i < k && Endless(flat, flat[i]) && flat[i].sourceLocator == l
  }

  lemma ListsStep(flat: seq<FlatNode>, k: nat, cycles: seq<string>)
    requires k < |flat| && ListsEndless(flat, k, cycles)
    ensures Endless(flat, flat[k]) ==> ListsEndless(flat, k + 1, cycles + [flat[k].sourceLocator])
    ensures Endless(flat, flat[k]) && flat[k].sourceLocator in cycles ==> ListsEndless(flat, k + 1, cycles)
    ensures !Endless(flat, flat[k]) ==> ListsEndless(flat, k + 1, cycles)
  {
    if Endless(flat, flat[k]) {
      var after := cycles + [flat[k].sourceLocator];
      forall l
        ensures l in after <==> exists i :: 0 <= i < k + 1 && Endless(flat, flat[i]) && flat[i].sourceLocator == l
      {
        if l == flat[k].sourceLocator {
          assert 0 <= k < k + 1 && Endless(flat, flat[k]);
        }
      }
    }
  }

  // ----- The rank argument -----

  /** Every parent reference resolves to a row of an allowed type, and roots may be roots. */
  ghost predicate TypesAgree(flat: seq<FlatNode>) {
    forall n :: n in flat ==>
      if Truthy(n.parentId) then
        Up(flat, n).Some? && ParentTypeAllowed(n.nodeType, Some(Up(flat, n).value.nodeType))
      else ParentTypeAllowed(n.nodeType, None)
  }

  lemma {:induction false} AncestorRank(flat: seq<FlatNode>, n: FlatNode, k: nat)
    requires TypesAgree(flat) && n in flat
    ensures Ancestor(flat, n, k).Some? ==>
              Ancestor(flat, n, k).value in flat && Rank(Ancestor(flat, n, k).value.nodeType) + k <= Rank(n.nodeType)
    decreases k
  {
    if k > 0 {
      AncestorRank(flat, n, k - 1);
      if Ancestor(flat, n, k).Some? {
        var c := Ancestor(flat, n, k - 1).value;
        ParentHasLowerRank(c.nodeType, Up(flat, c).value.nodeType);
      }
    }
  }

  /** Allowed parent types alone rule out cycles and bound every chain by nine rows. */
  lemma RankBoundsChains(flat: seq<FlatNode>)
    requires TypesAgree(flat)
    ensures forall n :: n in flat ==> !Endless(flat, n) && Ancestor(flat, n, 9).None?
  {
    forall n | n in flat
      ensures !Endless(flat, n) && Ancestor(flat, n, 9).None?
    {
      AncestorRank(flat, n, 9);
      assert Rank(n.nodeType) <= 8;
    }
  }

  // ----- The report -----

  datatype StructureReport = StructureReport(
    nodes: nat,
    documentParents: nat,
    orphans: seq<string>,
    cycles: seq<string>,
    invalidParents: seq<string>,
    wrongVersion: seq<string>,
    incompatibleTypes: seq<string>,
    duplicateLocators: seq<string>,
    pass: bool)

  /** The defects that the report lists, one list of locators each. */
  datatype Defect = Orphan | InvalidParent | WrongVersion(versionId: string) | IncompatibleType | RepeatedLocator

  predicate Has(flat: seq<FlatNode>, i: nat, d: Defect)
    requires i < |flat|
  {
    var n := flat[i];
    match d
    case Orphan => Truthy(n.parentId) && Up(flat, n).None?
    case InvalidParent =>
      if Truthy(n.parentId) then Up(flat, n).None? else !ParentTypeAllowed(n.nodeType, None)
    case WrongVersion(versionId) => n.versionId != versionId
    case IncompatibleType =>
      Up(flat, n).Some? && !ParentTypeAllowed(n.nodeType, Some(Up(flat, n).value.nodeType))
    case RepeatedLocator =>
      exists j :: 0 <= j < i && flat[j].sourceLocator == n.sourceLocator && flat[j].id != ""
  }

  /** Locators of the first `k` rows that have the defect, in order. */
  function Flagged(flat: seq<FlatNode>, k: nat, d: Defect): (r: seq<string>)
    requires k <= |flat|
  {
    if k == 0 then []
    else Flagged(flat, k - 1, d) + if Has(flat, k - 1, d) then [flat[k - 1].sourceLocator] else []
  }

  /** None of the first `k` rows has the defect. */
  predicate Without(flat: seq<FlatNode>, k: nat, d: Defect)
    requires k <= |flat|
  {
    forall i :: 0 <= i < k ==> !Has(flat, i, d)
  }

  lemma {:induction false} FlaggedEmpty(flat: seq<FlatNode>, k: nat, d: Defect)
    requires k <= |flat|
    ensures Flagged(flat, k, d) == [] <==> Without(flat, k, d)
  {
    if k > 0 {
      FlaggedEmpty(flat, k - 1, d);
    }
  }

  predicate IsDocumentRoot(n: FlatNode) {
    n.nodeType == DOCUMENT && n.parentId.None?
  }

  function CountRoots(flat: seq<FlatNode>, k: nat): (r: nat)
    requires k <= |flat|
  {
    if k == 0 then 0 else CountRoots(flat, k - 1) + if IsDocumentRoot(flat[k - 1]) then 1 else 0
  }

  /** `previous` lookups: the id stored for each locator seen so far. */
  ghost predicate SeenLocators(flat: seq<FlatNode>, k: nat, seen: map<string, string>)
    requires k <= |flat|
  {
    forall l :: (l in seen && seen[l] != "") <==>
      exists j :: 0 <= j < k && flat[j].sourceLocator == l && flat[j].id != ""
  }

  /** The branches on the parent of one row. */
  method CheckParent(flat: seq<FlatNode>, k: nat) returns (orphan: bool, invalid: bool, incompatible: bool)
    requires k < |flat|
    ensures orphan == Has(flat, k, Orphan) && invalid == Has(flat, k, InvalidParent)
    ensures incompatible == Has(flat, k, IncompatibleType)
  {
    orphan, invalid, incompatible := false, false, false;
    var node := flat[k];
    if Truthy(node.parentId) {
      var parent := Lookup(flat, node.parentId.value);
      if parent.None? {
        orphan, invalid := true, true;
      } else if !ParentTypeAllowed(node.nodeType, Some(parent.value.nodeType)) {
        incompatible := true;
      }
    } else if !ParentTypeAllowed(node.nodeType, None) {
      invalid := true;
    }
  }

  /** The five lists of the report over the first `k` rows. */
  datatype Lists = Lists(
    orphans: seq<string>, invalidParents: seq<string>, wrongVersion: seq<string>, incompatibleTypes: seq<string>,
    duplicateLocators: seq<string>)

  ghost predicate ListsUpTo(versionId: string, flat: seq<FlatNode>, k: nat, r: Lists)
    requires k <= |flat|
  {
    r.orphans == Flagged(flat, k, Orphan) && r.invalidParents == Flagged(flat, k, InvalidParent) &&
    r.wrongVersion == Flagged(flat, k, WrongVersion(versionId)) &&
    r.incompatibleTypes == Flagged(flat, k, IncompatibleType) &&
    r.duplicateLocators == Flagged(flat, k, RepeatedLocator)
  }

  /** One row of the loop, given whether its locator was seen before. */
  method EvaluateRow(versionId: string, flat: seq<FlatNode>, k: nat, repeated: bool, lists: Lists) returns (r: Lists)
    requires k < |flat| && ListsUpTo(versionId, flat, k, lists) && repeated == Has(flat, k, RepeatedLocator)
    ensures ListsUpTo(versionId, flat, k + 1, r)
  {
    var node := flat[k];
    r := lists;
    if node.versionId != versionId {
      r := r.(wrongVersion := r.wrongVersion + [node.sourceLocator]);
    }
    var orphan, invalid, incompatible := CheckParent(flat, k);
    if orphan {
      r := r.(orphans := r.orphans + [node.sourceLocator]);
    }
    if invalid {
      r := r.(invalidParents := r.invalidParents + [node.sourceLocator]);
    }
    if incompatible {
      r := r.(incompatibleTypes := r.incompatibleTypes + [node.sourceLocator]);
    }
    if repeated {
      r := r.(duplicateLocators := r.duplicateLocators + [node.sourceLocator]);
    }
  }

  method EvaluateVersionStructure(versionId: string, flat: seq<FlatNode>) returns (report: StructureReport)
    ensures report.nodes == |flat| && report.documentParents == CountRoots(flat, |flat|)
    ensures report.orphans == Flagged(flat, |flat|, Orphan)
    ensures report.invalidParents == Flagged(flat, |flat|, InvalidParent)
    ensures report.wrongVersion == Flagged(flat, |flat|, WrongVersion(versionId))
    ensures report.incompatibleTypes == Flagged(flat, |flat|, IncompatibleType)
    ensures report.duplicateLocators == Flagged(flat, |flat|, RepeatedLocator)
    ensures UniqueIds(flat) ==> ListsEndless(flat, |flat|, report.cycles)
    ensures report.pass ==> Passes(versionId, flat)
    ensures UniqueIds(flat) ==> (report.pass <==> Passes(versionId, flat))
  {
    var lists := Lists([], [], [], [], []);
    var seen: map<string, string> := map[];
    var documentParents: nat := 0;
    for k := 0 to |flat|
      invariant documentParents == CountRoots(flat, k)
      invariant ListsUpTo(versionId, flat, k, lists) && SeenLocators(flat, k, seen)
    {
      var node := flat[k];
      if node.nodeType == DOCUMENT && node.parentId.None? {
        documentParents := documentParents + 1;
      }
      var repeated := node.sourceLocator in seen && seen[node.sourceLocator] != "";
      assert repeated == Has(flat, k, RepeatedLocator);
      lists := EvaluateRow(versionId, flat, k, repeated, lists);
      if !repeated {
        seen := seen[node.sourceLocator := node.id];
      }
    }
    var cycles := DetectCycles(flat);
    var pass := documentParents == 1 && lists.orphans == [] && cycles == [] && lists.invalidParents == []
      && lists.wrongVersion == [] && lists.incompatibleTypes == [] && lists.duplicateLocators == [];
    PassMeaning(versionId, flat, cycles);
    report := StructureReport(|flat|, documentParents, lists.orphans, cycles, lists.invalidParents, lists.wrongVersion,
                              lists.incompatibleTypes, lists.duplicateLocators, pass);
  }

  // ----- What PASS means -----

  /** The report passes: stated row by row, without lists. */
  ghost predicate Passes(versionId: string, flat: seq<FlatNode>) {
    CountRoots(flat, |flat|) == 1 && TypesAgree(flat) &&
    Without(flat, |flat|, WrongVersion(versionId)) && Without(flat, |flat|, RepeatedLocator)
  }

  lemma TypesAgreeMeaning(flat: seq<FlatNode>)
    ensures TypesAgree(flat) <==>
            Without(flat, |flat|, Orphan) && Without(flat, |flat|, InvalidParent) &&
            Without(flat, |flat|, IncompatibleType)
  {
    if TypesAgree(flat) {
      assert forall i :: 0 <= i < |flat| ==> flat[i] in flat;
    } else {
      var n :| n in flat && !(
        if Truthy(n.parentId) then
          Up(flat, n).Some? && ParentTypeAllowed(n.nodeType, Some(Up(flat, n).value.nodeType))
        else ParentTypeAllowed(n.nodeType, None));
      var i :| 0 <= i < |flat| && flat[i] == n;
      assert Has(flat, i, Orphan) || Has(flat, i, InvalidParent) || Has(flat, i, IncompatibleType);
    }
  }

  /** The cycle list adds nothing to PASS: the type table already rules cycles out. */
  lemma PassMeaning(versionId: string, flat: seq<FlatNode>, cycles: seq<string>)
    ensures (CountRoots(flat, |flat|) == 1 &&
             Flagged(flat, |flat|, Orphan) == [] && Flagged(flat, |flat|, InvalidParent) == [] &&
             Flagged(flat, |flat|, WrongVersion(versionId)) == [] &&
             Flagged(flat, |flat|, IncompatibleType) == [] &&
             Flagged(flat, |flat|, RepeatedLocator) == [])
            <==> Passes(versionId, flat)
    ensures Passes(versionId, flat) && ListsEndless(flat, |flat|, cycles) ==> cycles == []
  {
    var n := |flat|;
    FlaggedEmpty(flat, n, Orphan);
    FlaggedEmpty(flat, n, InvalidParent);
    FlaggedEmpty(flat, n, WrongVersion(versionId));
    FlaggedEmpty(flat, n, IncompatibleType);
    FlaggedEmpty(flat, n, RepeatedLocator);
    TypesAgreeMeaning(flat);
    if TypesAgree(flat) && ListsEndless(flat, n, cycles) {
      NoCyclesListed(flat, cycles);
    }
  }

  lemma NoCyclesListed(flat: seq<FlatNode>, cycles: seq<string>)
    requires TypesAgree(flat) && ListsEndless(flat, |flat|, cycles)
    ensures cycles == []
  {
    RankBoundsChains(flat);
    assert forall i :: 0 <= i < |flat| ==> flat[i] in flat && !Endless(flat, flat[i]);
    SomeMember(cycles);
  }

  lemma {:induction false} OneRoot(flat: seq<FlatNode>, k: nat)
    requires k <= |flat|
    ensures CountRoots(flat, k) == 0 ==> forall i :: 0 <= i < k ==> !IsDocumentRoot(flat[i])
    ensures CountRoots(flat, k) == 1 ==>
              exists i :: 0 <= i < k && IsDocumentRoot(flat[i]) &&
                forall j :: 0 <= j < k && IsDocumentRoot(flat[j]) ==> j == i
  {
    if k > 0 {
      OneRoot(flat, k - 1);
      if CountRoots(flat, k) == 1 {
        if IsDocumentRoot(flat[k - 1]) {
          assert forall j :: 0 <= j < k && IsDocumentRoot(flat[j]) ==> j == k - 1;
        } else {
          var i :| 0 <= i < k - 1 && IsDocumentRoot(flat[i]) &&
            forall j :: 0 <= j < k - 1 && IsDocumentRoot(flat[j]) ==> j == i;
          assert 0 <= i < k && IsDocumentRoot(flat[i]);
        }
      }
    }
  }

  /** Allowed types and one DOCUMENT root are enough for a single tree that holds every row. */
  lemma TypesAssembleOneTree(flat: seq<FlatNode>)
    requires UniqueIds(flat) && NoEmptyParents(flat) && TypesAgree(flat) && CountRoots(flat, |flat|) == 1
    ensures |AssembleForest(flat)| == 1 && Matches(flat, AssembleForest(flat)[0])
    ensures IsDocumentRoot(AssembleForest(flat)[0].node)
    ensures forall x :: Count(Flatten(AssembleForest(flat)[0]), x) == Count(flat, x)
  {
    var ts := AssembleForest(flat);
    AssemblyMatches(flat);
    var root := TheRoot(flat);
    assert |ts| == |Heads(ts)| == 1 && ts[0].node == Heads(ts)[0];
    assert FlattenAll(ts) == Flatten(ts[0]) + FlattenAll(ts[1..]) == Flatten(ts[0]);
    SameCounts(flat, ts);
  }

  lemma TheRoot(flat: seq<FlatNode>) returns (root: FlatNode)
    requires UniqueIds(flat) && NoEmptyParents(flat) && TypesAgree(flat) && CountRoots(flat, |flat|) == 1
    ensures Roots(flat, flat) == [root] && IsDocumentRoot(root)
  {
    OneRoot(flat, |flat|);
    var r :| 0 <= r < |flat| && IsDocumentRoot(flat[r]) &&
      forall j :: 0 <= j < |flat| && IsDocumentRoot(flat[j]) ==> j == r;
    root := flat[r];
    RootsAre(flat, root);
  }

  lemma SameCounts(flat: seq<FlatNode>, ts: seq<Tree>)
    requires UniqueIds(flat) && NoEmptyParents(flat) && TypesAgree(flat) && MatchesForest(flat, ts)
    ensures forall x :: Count(FlattenAll(ts), x) == Count(flat, x)
  {
    FlattenOfAssembly(flat, ts);
    RankBoundsChains(flat);
    forall x
      ensures Count(FlattenAll(ts), x) == Count(flat, x)
    {
      CountPositive(flat, x);
      if x in flat {
        NoRepeatsCount(flat, x);
      }
    }
  }

  /**
   A passing list with unique ids and no empty parent id assembles into one tree, rooted at its only
   DOCUMENT row, that holds every row exactly once.
   */
  lemma PassAssemblesOneTree(versionId: string, flat: seq<FlatNode>)
    requires UniqueIds(flat) && NoEmptyParents(flat) && Passes(versionId, flat)
    ensures |AssembleForest(flat)| == 1 && AssembleForest(flat)[0].node.nodeType == DOCUMENT
    ensures forall x :: Count(Flatten(AssembleForest(flat)[0]), x) == Count(flat, x)
  {
    TypesAssembleOneTree(flat);
  }

  lemma RootsAre(flat: seq<FlatNode>, root: FlatNode)
    requires UniqueIds(flat) && NoEmptyParents(flat) && TypesAgree(flat) && root in flat && IsDocumentRoot(root)
    requires forall n :: n in flat && IsDocumentRoot(n) ==> n == root
    ensures Roots(flat, flat) == [root]
  {
    forall x
      ensures Count(Roots(flat, flat), x) == if x == root then 1 else 0
    {
      RootsCount(flat, flat, x);
      CountPositive(flat, x);
      if x in flat {
        NoRepeatsCount(flat, x);
        RootIsDocument(flat, x);
      }
    }
    OnlyMember(Roots(flat, flat), root);
  }

  lemma RootIsDocument(flat: seq<FlatNode>, n: FlatNode)
    requires NoEmptyParents(flat) && TypesAgree(flat) && n in flat
    ensures Up(flat, n).None? <==> IsDocumentRoot(n)
  {
  }
}
