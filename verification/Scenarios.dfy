/**
 Reachable stores in which the code does less than one may expect: old bytes that come back, an
 update refused because the current version starts in the future, and a node of a superseded
 version returned by its id.
 */
module Scenarios {
  import opened Prelude
  import opened LegalNodes
  import opened Hierarchy
  import opened HierarchyCheck
  import opened Versions
  import opened IngestModel
  import opened IngestInvariants
  import opened IngestTheorems
  import R = Retrieval
  import opened CitationQuery
  import C = Citations

  /** A page whose tree is a single DOCUMENT node. */
  function Root(version: string): (n: FlatNode) {
    FlatNode("n" + version, version, None, DOCUMENT, None, None, None, None, None, None, None, "doc", "text", "h")
  }

  function Page(version: string, bytes: string, from: Stamp, now: int): (q: Request) {
    Request("page", bytes, "parser", bytes, None, "title", from, [Tree(Root(version), [])], now, "d" + version, version)
  }

  const FIRST := Page("v1", "A", Unknown, 1)
  const SECOND := Page("v2", "B", Unknown, 2)
  const THIRD := Page("v3", "A", Unknown, 3)
  const EARLY := Page("v1", "A", At(10), 1)
  const LATER := Page("v2", "B", At(20), 5)

  lemma PageRows(q: Request)
    requires q.tree == [Tree(Root(q.freshVersion), [])]
    ensures FlattenAll(q.tree) == [Root(q.freshVersion)]
  {
    var t := q.tree[0];
    assert Flatten(t) == [t.node] + FlattenAll(t.children) == [t.node];
    assert q.tree[1..] == [];
    assert FlattenAll(q.tree) == Flatten(t) + FlattenAll(q.tree[1..]) == [t.node];
  }

  lemma PageAccepted(q: Request)
    requires q.tree == [Tree(Root(q.freshVersion), [])]
    ensures Accepted(q.tree)
  {
    PageRows(q);
    NotBlank("doc");
    NotBlank("h");
    assert q.tree[1..] == [];
    assert ParentsAgree(q.tree[0], None);
  }

  lemma NotBlank(s: string)
    requires s in {"A", "B", "parser", "doc", "h"}
    ensures !Blank(s)
  {
  }

  /** The pages here can be published as far as they themselves are concerned. */
  lemma PagePublishable(q: Request)
    requires q in {FIRST, SECOND, THIRD, EARLY, LATER}
    ensures Publishable(q, false)
  {
    PageAccepted(q);
    NotBlank(q.hash);
    NotBlank("parser");
  }

  lemma NewPageWrites(st: Store, q: Request)
    requires q.url !in st.documents && Publishable(q, false)
    ensures Publish(st, q) ==
            (Persisted(st, q, q.freshDocument, [], 1, q.from), Published(q.freshDocument, q.freshVersion))
  {
    PersistErrorMeaning(q, [], q.freshDocument, 1, false);
  }

  /** A known page whose only version has other bytes. */
  lemma UpdateWrites(st: Store, q: Request, id: string, v: Version)
    requires WellKept(id, [v]) && q.url in st.documents && st.documents[q.url].id == id && History(st, id) == [v]
    requires v.hash != q.hash && Publishable(q, false) && !StartsInFuture([v], q.now)
    ensures Publish(st, q) ==
            (Persisted(st, q, id, [Supersede(v, false, q.now)], 2, q.from), Published(id, q.freshVersion))
  {
    CannotSupersedeMeaning(id, [v], false, q.now);
    NextNumberIsNext(id, [v]);
    assert SupersedeAll([v], false, q.now) == [Supersede(v, false, q.now)];
    PersistErrorMeaning(q, [Supersede(v, false, q.now)], id, 2, false);
  }

  /** The store after one publish on the empty store. */
  function OneVersion(q: Request): (st: Store) {
    Persisted(EMPTY_STORE, q, "dv1", [], 1, q.from)
  }

  function FirstRow(q: Request): (v: Version) {
    NewVersion(q, "dv1", 1, q.from)
  }

  lemma FirstPublished(q: Request)
    requires q in {FIRST, EARLY}
    ensures Publish(EMPTY_STORE, q) == (OneVersion(q), Published("dv1", "v1"))
  {
    assert "d" + "v1" == "dv1";
    PagePublishable(q);
    NewPageWrites(EMPTY_STORE, q);
  }

  lemma OneVersionHistory(q: Request)
    requires q in {FIRST, EARLY}
    ensures History(OneVersion(q), "dv1") == [FirstRow(q)] && WellKept("dv1", [FirstRow(q)])
    ensures OneVersion(q).documents == map["page" := Document("dv1", "page", "title", true)]
  {
    assert [] + [FirstRow(q)] == [FirstRow(q)];
    NotBlank("A");
    NotBlank("parser");
  }

  /** The store after bytes A and then bytes B of the page. */
  function BothVersions(): (st: Store) {
    Persisted(OneVersion(FIRST), SECOND, "dv1", [Supersede(FirstRow(FIRST), false, 2)], 2, Unknown)
  }

  lemma SecondPublished()
    ensures Publish(OneVersion(FIRST), SECOND) == (BothVersions(), Published("dv1", "v2"))
  {
    OneVersionHistory(FIRST);
    PagePublishable(SECOND);
    UpdateWrites(OneVersion(FIRST), SECOND, "dv1", FirstRow(FIRST));
  }

  lemma BothHistory()
    ensures History(BothVersions(), "dv1") ==
            [Supersede(FirstRow(FIRST), false, 2)] + [NewVersion(SECOND, "dv1", 2, Unknown)]
    ensures BothVersions().documents == map["page" := Document("dv1", "page", "title", true)]
    ensures BothVersions().versions.Keys == {"dv1"}
  {
    OneVersionHistory(FIRST);
  }

  lemma RunOne(a: Action)
    ensures RunAll([a]) == Apply(EMPTY_STORE, a) && (FreshRun([a]) <==> FreshIds(EMPTY_STORE, a))
  {
    assert [a][..0] == [];
  }

  lemma RunTwo(a: Action, b: Action)
    ensures RunAll([a, b]) == Apply(RunAll([a]), b)
    ensures FreshRun([a, b]) <==> FreshRun([a]) && FreshIds(RunAll([a]), b)
  {
    assert [a, b][..1] == [a];
  }

  lemma TwoPublishes()
    ensures FreshRun([DoPublish(FIRST), DoPublish(SECOND)])
    ensures RunAll([DoPublish(FIRST), DoPublish(SECOND)]) == BothVersions()
  {
    RunOne(DoPublish(FIRST));
    RunTwo(DoPublish(FIRST), DoPublish(SECOND));
    FirstPublished(FIRST);
    OneVersionHistory(FIRST);
    SecondPublished();
    NewIds();
  }

  lemma NewIds()
    ensures FreshIds(EMPTY_STORE, DoPublish(FIRST)) && FreshIds(OneVersion(FIRST), DoPublish(SECOND))
  {
    OneVersionHistory(FIRST);
    var a, b := "d" + "v1", "d" + "v2";
    assert a == "dv1" && b[2] == '2' && "dv1"[2] == '1';
    assert "v1"[1] == '1' && "v2"[1] == '2';
  }

  lemma SameBytesUnchanged(st: Store, q: Request, id: string, first: Version, second: Version)
    requires q.url in st.documents && st.documents[q.url].id == id && History(st, id) == [first] + [second]
    requires first.hash == q.hash && first.parserId == q.parserId
    ensures Publish(st, q) == (st, Unchanged(id, first.id))
  {
  }

  /**
   Bytes A, B, A: the third publish answers "unchanged" and names the first version, which is
   superseded, while the page's current version holds bytes B.
   */
  lemma OldBytesNameSupersededVersion()
    ensures var st := RunAll([DoPublish(FIRST), DoPublish(SECOND)]);
            FreshRun([DoPublish(FIRST), DoPublish(SECOND)]) && Publish(st, THIRD) == (st, Unchanged("dv1", "v1")) &&
            (exists v :: v in History(st, "dv1") && v.id == "v1" && v.status == SUPERSEDED) &&
            Current(History(st, "dv1")) == Some(NewVersion(SECOND, "dv1", 2, Unknown))
  {
    TwoPublishes();
    BothHistory();
    var first := Supersede(FirstRow(FIRST), false, 2);
    SameBytesUnchanged(BothVersions(), THIRD, "dv1", first, NewVersion(SECOND, "dv1", 2, Unknown));
    assert first in History(BothVersions(), "dv1");
  }

  /** The current version starts after the clock reading of the update, so the update is refused. */
  lemma FutureVersionRefusesUpdate()
    ensures var st := RunAll([DoPublish(EARLY)]);
            FreshRun([DoPublish(EARLY)]) && StartsInFuture(History(st, "dv1"), LATER.now) &&
            Publish(st, LATER) == (st, Failed(InvalidVersion))
  {
    RunOne(DoPublish(EARLY));
    FirstPublished(EARLY);
    OneVersionHistory(EARLY);
    FutureRefuses(OneVersion(EARLY), LATER, "dv1", FirstRow(EARLY));
  }

  lemma FutureRefuses(st: Store, q: Request, id: string, v: Version)
    requires WellKept(id, [v]) && q.url in st.documents && st.documents[q.url].id == id && History(st, id) == [v]
    requires v.hash != q.hash && StartsInFuture([v], q.now)
    ensures Publish(st, q) == (st, Failed(InvalidVersion))
  {
    CannotSupersedeMeaning(id, [v], false, q.now);
  }

  // ----- A node of a superseded version -----

  function Reads(parse: string -> ParsedQuery, test: C.TitleTest): (repos: R.Repos) {
    R.Repos(BothVersions(), [], map["nv1" := Root("v1")], map["v1" := Supersede(FirstRow(FIRST), false, 2)],
            parse, test)
  }

  function ByNode(): (req: R.RetrieveRequest) {
    R.RetrieveRequest("", [], None, None, Some("nv1"), None, None)
  }

  lemma StoredRoots()
    ensures BothVersions().nodes == map["v1" := [Root("v1")], "v2" := [Root("v2")]]
    ensures BothVersions().citations == map["v1" := [], "v2" := []]
  {
    PageRows(FIRST);
    PageRows(SECOND);
    assert Stamped([Root("v1")], "v1") == [Root("v1")] && Stamped([Root("v2")], "v2") == [Root("v2")];
    assert [Root("v1")][..0] == [] && [Root("v2")][..0] == [];
  }

  lemma BothKept()
    ensures Inv(BothVersions())
  {
    TwoPublishes();
    RunKeepsInv([DoPublish(FIRST), DoPublish(SECOND)]);
  }

  /** A sound store without citations, read through one version and one node. */
  lemma OneNodeConsistent(st: Store, v: Version, n: FlatNode, repos: R.Repos)
    requires R.StoreSound(st) && v in History(st, v.documentId)
    requires n.versionId in st.nodes && n in st.nodes[n.versionId]
    requires forall id :: id in st.citations ==> st.citations[id] == []
    requires forall id :: id in st.nodes ==> NoEmptyIds(st.nodes[id])
    requires repos.store == st && repos.table == [] && repos.nodeById == map[n.id := n] &&
             repos.versionById == map[v.id := v]
    ensures R.Consistent(repos)
  {
  }

  lemma BothSound(st: Store, v: Version)
    requires st == BothVersions() && v == Supersede(FirstRow(FIRST), false, 2)
    ensures R.StoreSound(st) && v in History(st, v.documentId) && v.id == "v1"
  {
    BothKept();
    R.ReachableSound(st);
    BothHistory();
    assert v in History(st, "dv1");
  }

  lemma RootStored(st: Store)
    requires st == BothVersions()
    ensures "v1" in st.nodes && Root("v1") in st.nodes["v1"] && Root("v1").id == "nv1"
    ensures forall id :: id in st.citations ==> st.citations[id] == []
    ensures forall id :: id in st.nodes ==> NoEmptyIds(st.nodes[id])
  {
    StoredRoots();
    assert Root("v1") in [Root("v1")];
    assert "n" + "v1" == "nv1";
  }

  lemma ReadsConsistent(parse: string -> ParsedQuery, test: C.TitleTest)
    ensures R.Consistent(Reads(parse, test))
  {
    var st, v := BothVersions(), Supersede(FirstRow(FIRST), false, 2);
    BothSound(st, v);
    RootStored(st);
    OneNodeConsistent(st, v, Root("v1"), Reads(parse, test));
  }

  /** Asked for by its id, without an instant, a node of a superseded version is returned. */
  lemma NodeOfSupersededVersion(parse: string -> ParsedQuery, test: C.TitleTest)
    ensures var repos := Reads(parse, test);
            var v := repos.versionById["v1"];
            R.Consistent(repos) && Inv(repos.store) && v.status == SUPERSEDED &&
            R.NodeAnswer(repos, ByNode()) == [R.ToAuthority(Root("v1"), v)]
  {
    ReadsConsistent(parse, test);
    BothKept();
  }
}
