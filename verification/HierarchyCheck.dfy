/**
 The hierarchy assertion: an indexing walk over the tree that throws at the first
 violation, followed by a search for cycles.
 */
module HierarchyCheck {
  import opened Prelude
  import opened LegalNodes
  import opened Hierarchy

  datatype HierarchyError =
    | DuplicateId | ParentMismatch | DuplicateLocator(locator: string) | MissingLocator | MissingHash
    | CycleDetected

  /** A row together with the id of its parent in the tree, in walk order. */
  datatype Visit = Visit(node: FlatNode, parent: Option<string>)

  function Visits(t: Tree, parent: Option<string>): (r: seq<Visit>)
    decreases t
  {
    [Visit(t.node, parent)] + VisitsAll(t.children, Some(t.node.id))
  }

  function VisitsAll(ts: seq<Tree>, parent: Option<string>): (r: seq<Visit>)
    decreases ts
  {
    if ts == [] then [] else Visits(ts[0], parent) + VisitsAll(ts[1..], parent)
  }

  /** The checks made at one node, in the order they are made. */
  function CheckVisit(v: Visit, ids: set<string>, locators: set<string>): (r: Option<HierarchyError>) {
    if v.node.id in ids then Some(DuplicateId)
    else if v.node.parentId != v.parent then Some(ParentMismatch)
    else if v.node.sourceLocator in locators then Some(DuplicateLocator(v.node.sourceLocator))
    else if Blank(v.node.sourceLocator) then Some(MissingLocator)
    else if Blank(v.node.contentHash) then Some(MissingHash)
    else None
  }

  /** The first violation along a list of visits. */
  function FirstError(vs: seq<Visit>, ids: set<string>, locators: set<string>): (r: Option<HierarchyError>)
    decreases |vs|
  {
    if vs == [] then None
    else match CheckVisit(vs[0], ids, locators)
      case Some(e) => Some(e)
      case None => FirstError(vs[1..], ids + {vs[0].node.id}, locators + {vs[0].node.sourceLocator})
  }

  function VisitIds(vs: seq<Visit>): (r: set<string>) {
    set v | v in vs :: v.node.id
  }

  function VisitLocators(vs: seq<Visit>): (r: set<string>) {
    set v | v in vs :: v.node.sourceLocator
  }

  lemma VisitSetsConcat(a: seq<Visit>, b: seq<Visit>)
    ensures VisitIds(a + b) == VisitIds(a) + VisitIds(b)
    ensures VisitLocators(a + b) == VisitLocators(a) + VisitLocators(b)
  {
    assert forall v :: v in a + b <==> v in a || v in b;
  }

  lemma {:induction false} FirstErrorConcat(
      a: seq<Visit>, b: seq<Visit>, ids: set<string>, locators: set<string>)
    ensures FirstError(a + b, ids, locators) ==
            match FirstError(a, ids, locators)
            case Some(e) => Some(e)
            case None => FirstError(b, ids + VisitIds(a), locators + VisitLocators(a))
    decreases |a|
  {
    if a == [] {
      assert a + b == b;
      assert ids + VisitIds(a) == ids && locators + VisitLocators(a) == locators;
    } else {
      assert (a + b)[1..] == a[1..] + b;
      VisitSetsConcat([a[0]], a[1..]);
      assert [a[0]] + a[1..] == a;
      assert VisitIds([a[0]]) == {a[0].node.id} && VisitLocators([a[0]]) == {a[0].node.sourceLocator} by {
        assert a[0] in [a[0]];
      }
      var ids', locators' := ids + {a[0].node.id}, locators + {a[0].node.sourceLocator};
      FirstErrorConcat(a[1..], b, ids', locators');
      assert ids' + VisitIds(a[1..]) == ids + VisitIds(a);
      assert locators' + VisitLocators(a[1..]) == locators + VisitLocators(a);
    }
  }

  // ----- Meaning: which violation is thrown -----

  /** The node of visit `k` violates a rule against the nodes before it. */
  ghost predicate Violates(vs: seq<Visit>, k: nat, e: HierarchyError)
    requires k < |vs|
  {
    match e
    case DuplicateId => exists j :: 0 <= j < k && vs[j].node.id == vs[k].node.id
    case ParentMismatch => vs[k].node.parentId != vs[k].parent
    case DuplicateLocator(l) =>
      l == vs[k].node.sourceLocator && exists j :: 0 <= j < k && vs[j].node.sourceLocator == l
    case MissingLocator => Trim(vs[k].node.sourceLocator) == ""
    case MissingHash => Trim(vs[k].node.contentHash) == ""
    case CycleDetected => false
  }

  /** The order in which the rules are tried. */
  function Turn(e: HierarchyError): (r: nat) {
    match e
    case DuplicateId => 0
    case ParentMismatch => 1
    case DuplicateLocator(_) => 2
    case MissingLocator => 3
    case MissingHash => 4
    case CycleDetected => 5
  }

  ghost predicate Unviolated(vs: seq<Visit>, k: nat)
    requires k < |vs|
  {
    forall e :: !Violates(vs, k, e)
  }

  /** The violation of visit `k` that is tried first. */
  ghost predicate FirstAt(vs: seq<Visit>, k: nat, e: HierarchyError)
    requires k < |vs|
  {
    Violates(vs, k, e) && forall x :: Violates(vs, k, x) ==> Turn(e) <= Turn(x)
  }

  lemma VisitSetsAt(vs: seq<Visit>, k: nat)
    requires k < |vs|
    ensures vs[k].node.id in VisitIds(vs[..k]) <==> exists j :: 0 <= j < k && vs[j].node.id == vs[k].node.id
    ensures vs[k].node.sourceLocator in VisitLocators(vs[..k]) <==>
              exists j :: 0 <= j < k && vs[j].node.sourceLocator == vs[k].node.sourceLocator
  {
    forall j | 0 <= j < k
      ensures vs[j].node.id in VisitIds(vs[..k]) && vs[j].node.sourceLocator in VisitLocators(vs[..k])
    {
      assert vs[..k][j] in vs[..k];
    }
  }

  lemma CheckVisitMeaning(vs: seq<Visit>, k: nat)
    requires k < |vs|
    ensures var found := CheckVisit(vs[k], VisitIds(vs[..k]), VisitLocators(vs[..k]));
            if found.Some? then FirstAt(vs, k, found.value) else Unviolated(vs, k)
  {
    VisitSetsAt(vs, k);
  }

  /** From visit `n` on: the walk throws at the first visit that violates a rule, over the first rule violated there. */
  lemma {:induction false} FirstErrorFrom(vs: seq<Visit>, n: nat) returns (k: nat)
    requires n <= |vs|
    ensures var found := FirstError(vs[n..], VisitIds(vs[..n]), VisitLocators(vs[..n]));
            if found.Some?
            then n <= k < |vs| && FirstAt(vs, k, found.value) && forall j :: n <= j < k ==> Unviolated(vs, j)
            else forall j :: n <= j < |vs| ==> Unviolated(vs, j)
    decreases |vs| - n
  {
    k := n;
    if n < |vs| {
      CheckVisitMeaning(vs, n);
      assert vs[n..][1..] == vs[n + 1..] && vs[..n + 1] == vs[..n] + [vs[n]];
      VisitSetsConcat(vs[..n], [vs[n]]);
      assert vs[n] in [vs[n]];
      assert VisitIds([vs[n]]) == {vs[n].node.id} && VisitLocators([vs[n]]) == {vs[n].node.sourceLocator};
      if CheckVisit(vs[n], VisitIds(vs[..n]), VisitLocators(vs[..n])).None? {
        k := FirstErrorFrom(vs, n + 1);
      }
    }
  }

  /** The assertion throws at the first node in walk order that violates a rule, over the first rule it violates. */
  lemma FirstErrorMeaning(ts: seq<Tree>) returns (k: nat)
    ensures var (vs, found) := (VisitsAll(ts, None), FirstError(VisitsAll(ts, None), {}, {}));
            if found.Some? then k < |vs| && FirstAt(vs, k, found.value) && forall j :: 0 <= j < k ==> Unviolated(vs, j)
            else forall j :: 0 <= j < |vs| ==> Unviolated(vs, j)
  {
    var vs := VisitsAll(ts, None);
    assert vs[..0] == [] && vs[0..] == vs && VisitIds([]) == {} && VisitLocators([]) == {};
    k := FirstErrorFrom(vs, 0);
  }

  // ----- Meaning: what the walk accepts -----

  /** The documented rules: unique ids and locators, parent ids that name the parent, no blanks. */
  ghost predicate Accepted(ts: seq<Tree>) {
    UniqueIds(FlattenAll(ts)) && NoRepeats(Locators(FlattenAll(ts))) && ParentsAgreeAll(ts, None) &&
    forall n :: n in FlattenAll(ts) ==> !Blank(n.sourceLocator) && !Blank(n.contentHash)
  }

  lemma {:induction false} VisitsAreFlatten(ts: seq<Tree>, parent: Option<string>)
    ensures |VisitsAll(ts, parent)| == |FlattenAll(ts)|
    ensures forall i :: 0 <= i < |FlattenAll(ts)| ==> VisitsAll(ts, parent)[i].node == FlattenAll(ts)[i]
    decreases ts
  {
    if ts != [] {
      VisitsAreFlatten(ts[0].children, Some(ts[0].node.id));
      VisitsAreFlatten(ts[1..], parent);
    }
  }

  ghost predicate ParentsHold(vs: seq<Visit>) {
    forall i :: 0 <= i < |vs| ==> vs[i].node.parentId == vs[i].parent
  }

  lemma ParentsHoldConcat(a: seq<Visit>, b: seq<Visit>)
    ensures ParentsHold(a + b) <==> ParentsHold(a) && ParentsHold(b)
  {
    if ParentsHold(a + b) {
      assert forall i :: 0 <= i < |a| ==> a[i] == (a + b)[i];
      assert forall i :: 0 <= i < |b| ==> b[i] == (a + b)[|a| + i];
    }
  }

  lemma {:induction false} ParentsHoldMeaning(ts: seq<Tree>, parent: Option<string>)
    ensures ParentsHold(VisitsAll(ts, parent)) <==> ParentsAgreeAll(ts, parent)
    decreases ts
  {
    if ts != [] {
      var first := Visit(ts[0].node, parent);
      var below := VisitsAll(ts[0].children, Some(ts[0].node.id));
      ParentsHoldMeaning(ts[0].children, Some(ts[0].node.id));
      ParentsHoldMeaning(ts[1..], parent);
      ParentsHoldConcat([first], below);
      ParentsHoldConcat([first] + below, VisitsAll(ts[1..], parent));
      assert VisitsAll(ts, parent) == [first] + below + VisitsAll(ts[1..], parent);
      assert ParentsHold([first]) <==> ts[0].node.parentId == parent by {
        assert [first][0] == first;
      }
    }
  }

  ghost predicate CleanVisits(vs: seq<Visit>, ids: set<string>, locators: set<string>) {
    (forall i, j :: 0 <= i < j < |vs| ==> vs[i].node.id != vs[j].node.id) &&
    (forall i, j :: 0 <= i < j < |vs| ==> vs[i].node.sourceLocator != vs[j].node.sourceLocator) &&
    ParentsHold(vs) &&
    (forall i :: 0 <= i < |vs| ==>
      vs[i].node.id !in ids && vs[i].node.sourceLocator !in locators &&
      !Blank(vs[i].node.sourceLocator) && !Blank(vs[i].node.contentHash))
  }

  lemma {:induction false} NoErrorMeaning(vs: seq<Visit>, ids: set<string>, locators: set<string>)
    ensures FirstError(vs, ids, locators).None? <==> CleanVisits(vs, ids, locators)
    decreases |vs|
  {
    if vs != [] {
      var rest := vs[1..];
      NoErrorMeaning(rest, ids + {vs[0].node.id}, locators + {vs[0].node.sourceLocator});
      assert forall i :: 0 <= i < |rest| ==> rest[i] == vs[i + 1];
      if CleanVisits(vs, ids, locators) {
        assert CleanVisits(rest, ids + {vs[0].node.id}, locators + {vs[0].node.sourceLocator});
      }
      if CheckVisit(vs[0], ids, locators).None? && FirstError(vs, ids, locators).None? {
        assert forall i :: 0 < i < |vs| ==> vs[i] == rest[i - 1];
      }
    }
  }

  /** The walk reports no violation exactly on the forests that obey the documented rules. */
  lemma AcceptedMeaning(ts: seq<Tree>)
    ensures FirstError(VisitsAll(ts, None), {}, {}).None? <==> Accepted(ts)
  {
    var vs := VisitsAll(ts, None);
    var flat := FlattenAll(ts);
    NoErrorMeaning(vs, {}, {});
    VisitsAreFlatten(ts, None);
    ParentsHoldMeaning(ts, None);
    assert forall i :: 0 <= i < |flat| ==> Locators(flat)[i] == vs[i].node.sourceLocator;
    if Accepted(ts) {
      forall i | 0 <= i < |vs|
        ensures !Blank(vs[i].node.sourceLocator) && !Blank(vs[i].node.contentHash)
      {
        assert vs[i].node == flat[i] && flat[i] in flat;
      }
    }
    if CleanVisits(vs, {}, {}) {
      forall i, j | 0 <= i < j < |flat|
        ensures flat[i].id != flat[j].id
      {
        assert vs[i].node == flat[i] && vs[j].node == flat[j];
      }
      forall n | n in flat
        ensures !Blank(n.sourceLocator) && !Blank(n.contentHash)
      {
        var i :| 0 <= i < |flat| && flat[i] == n;
        assert vs[i].node == n;
      }
    }
  }

  // ----- The walks themselves -----

  lemma IndexStep(t: Tree, parent: Option<string>, ids: set<string>, locators: set<string>)
    ensures FirstError(Visits(t, parent), ids, locators) ==
            match CheckVisit(Visit(t.node, parent), ids, locators)
            case Some(e) => Some(e)
            case None => FirstError(VisitsAll(t.children, Some(t.node.id)),
                                    ids + {t.node.id}, locators + {t.node.sourceLocator})
    ensures VisitIds(Visits(t, parent)) == {t.node.id} + VisitIds(VisitsAll(t.children, Some(t.node.id)))
    ensures VisitLocators(Visits(t, parent)) ==
            {t.node.sourceLocator} + VisitLocators(VisitsAll(t.children, Some(t.node.id)))
  {
    var first := Visit(t.node, parent);
    var below := VisitsAll(t.children, Some(t.node.id));
    assert Visits(t, parent)[1..] == below;
    VisitSetsConcat([first], below);
    assert VisitIds([first]) == {t.node.id} && VisitLocators([first]) == {t.node.sourceLocator} by {
      assert first in [first];
    }
  }

  class IndexWalk {
    var byId: map<string, FlatNode>
    var locators: set<string>

    constructor ()
      ensures byId == map[] && locators == {}
    {
      byId := map[];
      locators := {};
    }

    method Index(t: Tree, parent: Option<string>) returns (error: Option<HierarchyError>)
      modifies this
      ensures error == FirstError(Visits(t, parent), old(byId.Keys), old(locators))
      ensures error.None? ==> byId.Keys == old(byId.Keys) + VisitIds(Visits(t, parent))
      ensures error.None? ==> locators == old(locators) + VisitLocators(Visits(t, parent))
      decreases t, 0
    {
      IndexStep(t, parent, byId.Keys, locators);
      if t.node.id in byId {
        return Some(DuplicateId);
      }
      if t.node.parentId != parent {
        return Some(ParentMismatch);
      }
      if t.node.sourceLocator in locators {
        return Some(DuplicateLocator(t.node.sourceLocator));
      }
      if Blank(t.node.sourceLocator) {
        return Some(MissingLocator);
      }
      if Blank(t.node.contentHash) {
        return Some(MissingHash);
      }
      byId := byId[t.node.id := t.node];
      assert byId.Keys == old(byId.Keys) + {t.node.id};
      locators := locators + {t.node.sourceLocator};
      error := IndexChildren(t.children, Some(t.node.id));
    }

    method IndexChildren(ts: seq<Tree>, parent: Option<string>) returns (error: Option<HierarchyError>)
      modifies this
      ensures error == FirstError(VisitsAll(ts, parent), old(byId.Keys), old(locators))
      ensures error.None? ==> byId.Keys == old(byId.Keys) + VisitIds(VisitsAll(ts, parent))
      ensures error.None? ==> locators == old(locators) + VisitLocators(VisitsAll(ts, parent))
      decreases ts, 1
    {
      if ts == [] {
        return None;
      }
      FirstErrorConcat(Visits(ts[0], parent), VisitsAll(ts[1..], parent), byId.Keys, locators);
      VisitSetsConcat(Visits(ts[0], parent), VisitsAll(ts[1..], parent));
      error := Index(ts[0], parent);
      if error.None? {
        error := IndexChildren(ts[1..], parent);
      }
    }
  }

  class AcyclicWalk {
    var visiting: set<string>
    var visited: set<string>

    constructor ()
      ensures visiting == {} && visited == {}
    {
      visiting := {};
      visited := {};
    }

    /** Never throws on rows whose ids are new to the walk and pairwise distinct. */
    method Walk(t: Tree) returns (error: Option<HierarchyError>)
      requires UniqueIds(Flatten(t)) && IdSet(Flatten(t)) !! visiting + visited
      modifies this
      ensures error.None?
      ensures visiting == old(visiting) && visited == old(visited) + IdSet(Flatten(t))
      decreases t, 0
    {
      var id := t.node.id;
      assert t.node in Flatten(t);
      DisjointParts([t.node], FlattenAll(t.children));
      IdSetConcat([t.node], FlattenAll(t.children));
      assert IdSet([t.node]) == {id} by { assert t.node in [t.node]; }
      if id in visiting {
        return Some(CycleDetected);
      }
      if id in visited {
        return None;
      }
      visiting := visiting + {id};
      error := WalkChildren(t.children);
      if error.Some? {
        return;
      }
      visiting := visiting - {id};
      visited := visited + {id};
    }

    method WalkChildren(ts: seq<Tree>) returns (error: Option<HierarchyError>)
      requires UniqueIds(FlattenAll(ts)) && IdSet(FlattenAll(ts)) !! visiting + visited
      modifies this
      ensures error.None?
      ensures visiting == old(visiting) && visited == old(visited) + IdSet(FlattenAll(ts))
      decreases ts, 1
    {
      if ts == [] {
        return None;
      }
      DisjointParts(Flatten(ts[0]), FlattenAll(ts[1..]));
      IdSetConcat(Flatten(ts[0]), FlattenAll(ts[1..]));
      error := Walk(ts[0]);
      if error.None? {
        error := WalkChildren(ts[1..]);
      }
    }
  }

  /**
   The assertion throws exactly the first violation of the indexing walk: once that walk
   accepts, the search for cycles cannot throw.
   */
  method AssertLegalNodeHierarchy(ts: seq<Tree>) returns (error: Option<HierarchyError>)
    ensures error == FirstError(VisitsAll(ts, None), {}, {})
    ensures error.None? <==> Accepted(ts)
  {
    var index := new IndexWalk();
    assert index.byId.Keys == {};
    error := index.IndexChildren(ts, None);
    AcceptedMeaning(ts);
    if error.None? {
      var acyclic := new AcyclicWalk();
      error := acyclic.WalkChildren(ts);
    }
  }
}
