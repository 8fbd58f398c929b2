/**
 Retrieval of authorities: every lookup route over the corpus, the dedupe of ranked
 candidates, and what an as-of request may and may not return.
 */
module Retrieval {
  import opened Prelude
  import opened LegalNodes
  import opened Hierarchy
  import opened Versions
  import opened IngestModel
  import opened IngestInvariants
  import opened CitationQuery
  import opened Citations

  const MAX_AUTHORITIES := 100
  const EXCERPT_LENGTH := 500

  datatype Authority = Authority(
    nodeId: string, documentId: string, versionId: string, locator: string, title: string, excerpt: string,
    contentHash: string, sourceContentHash: string, parserId: string, archiveId: string,
    from: Option<int>, to: Option<int>)

  datatype Cited = Cited(query: string, nodeId: Option<string>)

  /** A request; `asOf` is present when it carried a non-empty instant. */
  datatype RetrieveRequest = RetrieveRequest(
    question: string, cited: seq<Cited>, asOf: Option<Stamp>, documentId: Option<string>, nodeId: Option<string>,
    citationKey: Option<string>, locator: Option<string>)

  datatype ResponseStatus = OK | AS_OF_UNAVAILABLE
  datatype Response = Response(authorities: seq<Authority>, status: ResponseStatus)

  /** A ranked candidate of the full-text search, joined with its version. */
  datatype SearchHit = SearchHit(node: FlatNode, version: Version)

  /**
   What the repositories answer from: the stored corpus, its citation table in some order, and
   the nodes and versions by id. The phrase parser and the title test come from outside.
   */
  datatype Repos = Repos(
    store: Store, table: seq<Row>, nodeById: map<string, FlatNode>, versionById: map<string, Version>,
    parse: string -> ParsedQuery, test: TitleTest)

  ghost predicate IsStored(st: Store, n: FlatNode, v: Version) {
    v in History(st, v.documentId) && v.id in st.nodes && n in st.nodes[v.id]
  }

  /** The rows of the version are its own, with unique ids, and each of its citations names it and cites one of them. */
  ghost predicate VersionSound(st: Store, v: Version) {
    v.id in st.nodes && UniqueIds(st.nodes[v.id]) &&
    (v.id in st.citations ==>
       forall c :: c in st.citations[v.id] ==> c.versionId == v.id && CitesSomeRow(c, st.nodes[v.id]))
  }

  /** Nothing is said about status, bounds and numbers: drafts, withdrawn and migrated rows may be stored. */
  ghost predicate StoreSound(st: Store) {
    forall d, v :: d in st.versions && v in st.versions[d] ==> v.documentId == d && VersionSound(st, v)
  }

  /** The reads agree with the store, and ids are not empty. */
  ghost predicate Consistent(repos: Repos) {
    StoreSound(repos.store) && TableOf(repos.store, repos.table) &&
    (forall id :: id in repos.versionById ==>
       repos.versionById[id].id == id &&
       repos.versionById[id] in History(repos.store, repos.versionById[id].documentId)) &&
    (forall id :: id in repos.nodeById ==>
       repos.nodeById[id].id == id && repos.nodeById[id].versionId in repos.store.nodes &&
       repos.nodeById[id] in repos.store.nodes[repos.nodeById[id].versionId]) &&
    (forall v :: v in repos.store.nodes ==> NoEmptyIds(repos.store.nodes[v]))
  }

  /** Every reachable store is sound. */
  lemma ReachableSound(st: Store)
    requires Inv(st)
    ensures StoreSound(st)
  {
    forall d, v | d in st.versions && v in st.versions[d]
      ensures v.documentId == d && VersionSound(st, v)
    {
      HistoryOk(st, d);
      assert StoredVersion(st, v.id);
    }
  }

  // ----- Authorities -----

  function Take(s: string, n: nat): (r: string) {
    if |s| <= n then s else s[..n]
  }

  function Or(s: Option<string>, other: string): (r: string) {
    if s.Some? then s.value else other
  }

  function ToAuthority(n: FlatNode, v: Version): (r: Authority) {
    Authority(n.id, v.documentId, v.id, n.sourceLocator,
              Or(n.title, if Truthy(n.article) then "Article " + n.article.value else n.sourceLocator),
              Take(n.text, EXCERPT_LENGTH), n.contentHash, v.hash, v.parserId, v.archiveId, v.from, v.to)
  }

  function MatchAuthority(r: Row): (result: Authority) {
    Authority(r.citation.nodeId, r.version.documentId, r.version.id, r.citation.locator,
              Or(r.node.title, r.citation.locator), Take(r.citation.exactText, EXCERPT_LENGTH),
              r.citation.hash, r.version.hash, r.version.parserId, r.version.archiveId, r.version.from, r.version.to)
  }

  /** The first five hundred characters, or all of a shorter text. */
  predicate IsExcerpt(excerpt: string, text: string) {
    excerpt <= text && (|excerpt| == 500 || (|text| <= 500 && excerpt == text))
  }

  /** The authority reports node `n` of version `v`, with the node's title if it has one. */
  predicate Reports(a: Authority, n: FlatNode, v: Version) {
    a.nodeId == n.id && a.documentId == v.documentId && a.versionId == v.id && a.locator == n.sourceLocator &&
    IsExcerpt(a.excerpt, n.text) && a.contentHash == n.contentHash && a.sourceContentHash == v.hash &&
    a.parserId == v.parserId && a.archiveId == v.archiveId && a.from == v.from && a.to == v.to &&
    (n.title.Some? ==> a.title == n.title.value)
  }

  /** The version may be shown for this request. */
  predicate Allowed(req: RetrieveRequest, v: Version) {
    (req.asOf.Some? ==> Covers(v, req.asOf.value)) &&
    (Truthy(req.nodeId) || (if req.asOf.Some? then Citable(v) else v.status == PUBLISHED))
  }

  /** The authority reports a stored node of a version that may be shown. */
  ghost predicate Backed(repos: Repos, req: RetrieveRequest, a: Authority) {
    exists n, v :: IsStored(repos.store, n, v) && Reports(a, n, v) && Allowed(req, v)
  }

  /** An answer of the citation table reports the node its citation was written for. */
  lemma MatchReports(repos: Repos, r: Row)
    requires Consistent(repos) && r in repos.table
    ensures IsStored(repos.store, r.node, r.version) && Reports(MatchAuthority(r), r.node, r.version)
  {
    var st := repos.store;
    assert Joined(st, r);
    assert VersionSound(st, r.version);
    var rows := st.nodes[r.version.id];
    assert CitesSomeRow(r.citation, rows);
    var n :| n in rows && n.nodeType != DOCUMENT && Cites(r.citation, n);
    LookupUnique(rows, n);
    LookupUnique(rows, r.node);
  }

  // ----- Candidates of an open question -----

  predicate Eligible(hit: SearchHit, asOf: Option<Stamp>) {
    asOf.Some? ==> Covers(hit.version, asOf.value)
  }

  function HitKey(hit: SearchHit): (r: string) {
    hit.version.documentId + ":" + hit.node.sourceLocator
  }

  /** The candidate is eligible and no better ranked eligible one has its key. */
  predicate IsFirst(hits: seq<SearchHit>, asOf: Option<Stamp>, k: nat)
    requires k < |hits|
  {
    Eligible(hits[k], asOf) &&
    forall j :: 0 <= j < k && Eligible(hits[j], asOf) ==> HitKey(hits[j]) != HitKey(hits[k])
  }

  /** The first eligible candidate of every provision among the best `n`, in rank order. */
  function Firsts(hits: seq<SearchHit>, asOf: Option<Stamp>, n: nat): (r: seq<SearchHit>)
    requires n <= |hits|
  {
    if n == 0 then []
    else Firsts(hits, asOf, n - 1) + if IsFirst(hits, asOf, n - 1) then [hits[n - 1]] else []
  }

  lemma {:induction false} FirstsMembers(hits: seq<SearchHit>, asOf: Option<Stamp>, n: nat)
    requires n <= |hits|
    ensures forall h :: h in Firsts(hits, asOf, n) ==> h in hits && Eligible(h, asOf)
  {
    if n > 0 {
      FirstsMembers(hits, asOf, n - 1);
    }
  }

  method FilterAndDedupeCandidates(hits: seq<SearchHit>, asOf: Option<Stamp>) returns (out: seq<SearchHit>)
    ensures out == Firsts(hits, asOf, |hits|)
  {
    var seen: set<string> := {};
    out := [];
    for k := 0 to |hits|
      invariant out == Firsts(hits, asOf, k)
      invariant forall j :: 0 <= j < k && Eligible(hits[j], asOf) ==> HitKey(hits[j]) in seen
      invariant forall key :: key in seen ==>
                  exists j :: 0 <= j < k && Eligible(hits[j], asOf) && HitKey(hits[j]) == key
    {
      if asOf.Some? && !Covers(hits[k].version, asOf.value) {
        continue;
      }
      var key := HitKey(hits[k]);
      if key in seen {
        continue;
      }
      seen := seen + {key};
      out := out + [hits[k]];
    }
  }

  /** The search returns stored nodes of versions with an acceptable status. */
  ghost predicate HitsOk(repos: Repos, asOf: Option<Stamp>, hits: seq<SearchHit>) {
    forall h :: h in hits ==>
      IsStored(repos.store, h.node, h.version) &&
      if asOf.Some? then Citable(h.version) else h.version.status == PUBLISHED
  }

  // ----- Routes -----

  ghost predicate AllBacked(repos: Repos, req: RetrieveRequest, found: seq<Authority>) {
    forall a :: a in found ==> Backed(repos, req, a)
  }

  /** By node id; the status of the version is not looked at. */
  function NodeAnswer(repos: Repos, req: RetrieveRequest): (r: seq<Authority>)
    requires Truthy(req.nodeId)
  {
    if req.nodeId.value !in repos.nodeById then []
    else
      var node := repos.nodeById[req.nodeId.value];
      if node.versionId !in repos.versionById then []
      else
        var version := repos.versionById[node.versionId];
        if req.asOf.Some? && !Covers(version, req.asOf.value) then [] else [ToAuthority(node, version)]
  }

  lemma NodeBacked(repos: Repos, req: RetrieveRequest)
    requires Consistent(repos) && Truthy(req.nodeId)
    ensures AllBacked(repos, req, NodeAnswer(repos, req))
  {
    if NodeAnswer(repos, req) != [] {
      var node := repos.nodeById[req.nodeId.value];
      assert IsStored(repos.store, node, repos.versionById[node.versionId]);
    }
  }

  /**
   The node route answers from whatever version the node is stored under. Without an instant,
   in a reachable store, that version is superseded exactly when it is not its document's last.
   */
  lemma NodeRouteStatus(repos: Repos, req: RetrieveRequest)
    requires Consistent(repos) && Inv(repos.store) && Truthy(req.nodeId) && req.asOf.None?
    requires req.nodeId.value in repos.nodeById && repos.nodeById[req.nodeId.value].versionId in repos.versionById
    ensures var node := repos.nodeById[req.nodeId.value];
            var v := repos.versionById[node.versionId];
            NodeAnswer(repos, req) == [ToAuthority(node, v)] &&
            (v.status == SUPERSEDED <==> Some(v) != Current(History(repos.store, v.documentId)))
  {
    var v := repos.versionById[repos.nodeById[req.nodeId.value].versionId];
    HistoryOk(repos.store, v.documentId);
    CurrentIsLast(v.documentId, History(repos.store, v.documentId));
  }

  function AuthoritiesOf(rows: seq<FlatNode>, v: Version): (r: seq<Authority>)
    ensures |r| == |rows| && forall i :: 0 <= i < |r| ==> r[i] == ToAuthority(rows[i], v)
  {
    seq(|rows|, i requires 0 <= i < |rows| => ToAuthority(rows[i], v))
  }

  /** The version a document request is answered from. */
  function Applicable(st: Store, documentId: string, asOf: Option<Stamp>): (r: Option<Version>) {
    if asOf.Some? then AsOf(History(st, documentId), asOf.value) else Current(History(st, documentId))
  }

  /** The rows of the version, as the assembled tree lists them. */
  function DocumentAnswer(repos: Repos, req: RetrieveRequest): (r: seq<Authority>)
    requires Truthy(req.documentId)
  {
    match Applicable(repos.store, req.documentId.value, req.asOf)
    case None => []
    case Some(v) =>
      if v.id in repos.store.nodes then AuthoritiesOf(FlattenAll(AssembleForest(repos.store.nodes[v.id])), v) else []
  }

  lemma DocumentBacked(repos: Repos, req: RetrieveRequest)
    requires Consistent(repos) && Truthy(req.documentId)
    ensures AllBacked(repos, req, DocumentAnswer(repos, req))
  {
    var v := Applicable(repos.store, req.documentId.value, req.asOf);
    if v.Some? {
      assert VersionSound(repos.store, v.value);
      ListedBacked(repos, req, v.value);
    }
  }

  lemma ListedBacked(repos: Repos, req: RetrieveRequest, v: Version)
    requires Consistent(repos) && v in History(repos.store, v.documentId) && VersionSound(repos.store, v)
    requires Allowed(req, v)
    ensures AllBacked(repos, req, AuthoritiesOf(FlattenAll(AssembleForest(repos.store.nodes[v.id])), v))
  {
    var rows := repos.store.nodes[v.id];
    var listed := FlattenAll(AssembleForest(rows));
    AssemblyMatches(rows);
    FlattenOfAssembly(rows, AssembleForest(rows));
    forall i | 0 <= i < |listed|
      ensures Backed(repos, req, ToAuthority(listed[i], v))
    {
      assert listed[i] in listed;
      assert IsStored(repos.store, listed[i], v);
    }
  }

  function MatchAuthorities(matches: seq<Row>): (r: seq<Authority>)
    ensures |r| == |matches| && forall i :: 0 <= i < |r| ==> r[i] == MatchAuthority(matches[i])
  {
    seq(|matches|, i requires 0 <= i < |matches| => MatchAuthority(matches[i]))
  }

  /** The answers of the citation table to one query. */
  function QueryAnswer(repos: Repos, q: LookupQuery): (r: seq<Authority>) {
    MatchAuthorities(FirstAnswers(repos.table, q, repos.test, |repos.table|))
  }

  lemma QueryBacked(repos: Repos, req: RetrieveRequest, q: LookupQuery)
    requires Consistent(repos) && q.asOf == req.asOf
    ensures AllBacked(repos, req, QueryAnswer(repos, q))
  {
    var matches := FirstAnswers(repos.table, q, repos.test, |repos.table|);
    MatchesFound(repos.table, q, repos.test);
    forall i | 0 <= i < |matches|
      ensures Backed(repos, req, MatchAuthority(matches[i]))
    {
      assert matches[i] in matches;
      MatchReports(repos, matches[i]);
      assert Allowed(req, matches[i].version);
    }
  }

  /** `citationKey ?? locator ?? question`. */
  function KeyText(req: RetrieveRequest): (r: string) {
    Or(req.citationKey, Or(req.locator, req.question))
  }

  function KeyQuery(req: RetrieveRequest, parsed: ParsedQuery): (r: LookupQuery) {
    LookupQuery(KeyText(req), None, None, if req.locator.Some? then req.locator else parsed.locator, req.citationKey,
                parsed.titleHint, parsed.article, parsed.paragraph, req.asOf)
  }

  function CitedQuery(c: Cited, parsed: ParsedQuery, asOf: Option<Stamp>): (r: LookupQuery) {
    LookupQuery(c.query, c.nodeId, None, parsed.locator, None, parsed.titleHint, parsed.article, parsed.paragraph, asOf)
  }

  /** The answers to the first `n` cited phrases, one after the other. */
  function CitedAnswer(repos: Repos, req: RetrieveRequest, n: nat): (r: seq<Authority>)
    requires n <= |req.cited|
  {
    if n == 0 then []
    else
      var c := req.cited[n - 1];
      CitedAnswer(repos, req, n - 1) + QueryAnswer(repos, CitedQuery(c, repos.parse(c.query), req.asOf))
  }

  lemma {:induction false} CitedBacked(repos: Repos, req: RetrieveRequest, n: nat)
    requires Consistent(repos) && n <= |req.cited|
    ensures AllBacked(repos, req, CitedAnswer(repos, req, n))
  {
    if n > 0 {
      var c := req.cited[n - 1];
      CitedBacked(repos, req, n - 1);
      QueryBacked(repos, req, CitedQuery(c, repos.parse(c.query), req.asOf));
    }
  }

  function HitAuthorities(hits: seq<SearchHit>): (r: seq<Authority>)
    ensures |r| == |hits| && forall i :: 0 <= i < |r| ==> r[i] == ToAuthority(hits[i].node, hits[i].version)
  {
    seq(|hits|, i requires 0 <= i < |hits| => ToAuthority(hits[i].node, hits[i].version))
  }

  lemma QuestionBacked(repos: Repos, req: RetrieveRequest, hits: seq<SearchHit>)
    requires HitsOk(repos, req.asOf, hits)
    ensures AllBacked(repos, req, HitAuthorities(Firsts(hits, req.asOf, |hits|)))
  {
    var kept := Firsts(hits, req.asOf, |hits|);
    FirstsMembers(hits, req.asOf, |hits|);
    forall i | 0 <= i < |kept|
      ensures Backed(repos, req, ToAuthority(kept[i].node, kept[i].version))
    {
      assert kept[i] in kept;
      assert Reports(ToAuthority(kept[i].node, kept[i].version), kept[i].node, kept[i].version);
    }
  }

  /** The answer of the first route whose field is given. */
  function Answer(repos: Repos, req: RetrieveRequest, hits: seq<SearchHit>): (r: seq<Authority>) {
    if Truthy(req.nodeId) then NodeAnswer(repos, req)
    else if Truthy(req.documentId) then DocumentAnswer(repos, req)
    else if Truthy(req.citationKey) || Truthy(req.locator) then
      QueryAnswer(repos, KeyQuery(req, repos.parse(KeyText(req))))
    else if req.cited != [] then CitedAnswer(repos, req, |req.cited|)
    else if Blank(req.question) then []
    else HitAuthorities(Firsts(hits, req.asOf, |hits|))
  }

  /**
   On every route, every authority reports a stored node of a version that may be shown: with
   an instant a version that covers it, and, except by node id, only a published version or,
   with an instant, a superseded one.
   */
  lemma AnswerBacked(repos: Repos, req: RetrieveRequest, hits: seq<SearchHit>)
    requires Consistent(repos) && HitsOk(repos, req.asOf, hits)
    ensures AllBacked(repos, req, Answer(repos, req, hits))
  {
    if Truthy(req.nodeId) {
      NodeBacked(repos, req);
    } else if Truthy(req.documentId) {
      DocumentBacked(repos, req);
    } else if Truthy(req.citationKey) || Truthy(req.locator) {
      QueryBacked(repos, req, KeyQuery(req, repos.parse(KeyText(req))));
    } else if req.cited != [] {
      CitedBacked(repos, req, |req.cited|);
    } else if !Blank(req.question) {
      QuestionBacked(repos, req, hits);
    }
  }

  /** The reads and loops of `lookup`. */
  method Lookup(repos: Repos, req: RetrieveRequest, hits: seq<SearchHit>) returns (found: seq<Authority>)
    requires Consistent(repos)
    ensures found == Answer(repos, req, hits)
  {
    if Truthy(req.nodeId) {
      return NodeAnswer(repos, req);
    }
    if Truthy(req.documentId) {
      var version := FindPublishedForDocument(History(repos.store, req.documentId.value), req.asOf);
      if version.None? {
        return [];
      }
      assert VersionSound(repos.store, version.value);
      return AuthoritiesOf(FlattenAll(AssembleForest(repos.store.nodes[version.value.id])), version.value);
    }
    if Truthy(req.citationKey) || Truthy(req.locator) {
      var matches := FindPublishedMatches(repos.table, KeyQuery(req, repos.parse(KeyText(req))), repos.test);
      return MatchAuthorities(matches);
    }
    if req.cited != [] {
      found := [];
      for k := 0 to |req.cited|
        invariant found == CitedAnswer(repos, req, k)
      {
        var c := req.cited[k];
        var matches := FindPublishedMatches(repos.table, CitedQuery(c, repos.parse(c.query), req.asOf), repos.test);
        found := found + MatchAuthorities(matches);
      }
      return found;
    }
    if Blank(req.question) {
      return [];
    }
    var kept := FilterAndDedupeCandidates(hits, req.asOf);
    return HitAuthorities(kept);
  }

  // ----- The response -----

  predicate Bounded(a: Authority) {
    a.from.Some? && a.to.Some?
  }

  function FilterBounded(found: seq<Authority>): (r: seq<Authority>)
    decreases |found|
  {
    if found == [] then []
    else FilterBounded(found[..|found| - 1]) + if Bounded(found[|found| - 1]) then [found[|found| - 1]] else []
  }

  function FirstAuthorities(found: seq<Authority>): (r: seq<Authority>) {
    if |found| <= MAX_AUTHORITIES then found else found[..MAX_AUTHORITIES]
  }

  /** The response to the authorities that the lookup found. */
  function Respond(found: seq<Authority>, asOf: Option<Stamp>): (r: Response) {
    if asOf.Some? then
      var verified := FilterBounded(found);
      if verified == [] then Response([], AS_OF_UNAVAILABLE) else Response(FirstAuthorities(verified), OK)
    else Response(FirstAuthorities(found), OK)
  }

  lemma {:induction false} FilterKeepsBounded(found: seq<Authority>)
    requires forall a :: a in found ==> Bounded(a)
    ensures FilterBounded(found) == found
    decreases |found|
  {
    if found != [] {
      var before, last := found[..|found| - 1], found[|found| - 1];
      assert found == before + [last];
      assert last in found;
      FilterKeepsBounded(before);
    }
  }

  lemma BackedBounded(repos: Repos, req: RetrieveRequest, a: Authority)
    requires Backed(repos, req, a) && req.asOf.Some?
    ensures Bounded(a)
  {
    var n, v :| IsStored(repos.store, n, v) && Reports(a, n, v) && Allowed(req, v);
  }

  /** With an instant, the bounds filter of the response has nothing left to remove. */
  lemma AsOfFilterRemovesNothing(repos: Repos, req: RetrieveRequest, found: seq<Authority>)
    requires AllBacked(repos, req, found) && req.asOf.Some?
    ensures FilterBounded(found) == found
    ensures Respond(found, req.asOf) ==
            if found == [] then Response([], AS_OF_UNAVAILABLE) else Response(FirstAuthorities(found), OK)
  {
    forall a | a in found
      ensures Bounded(a)
    {
      BackedBounded(repos, req, a);
    }
    FilterKeepsBounded(found);
  }

  /**
   `retrieve`: the answer of the route, cut to a hundred. With an instant, the response is OK
   exactly when the route found something.
   */
  method Retrieve(repos: Repos, req: RetrieveRequest, hits: seq<SearchHit>) returns (response: Response)
    requires Consistent(repos) && HitsOk(repos, req.asOf, hits)
    ensures var found := Answer(repos, req, hits);
            response.authorities == if |found| <= 100 then found else found[..100]
    ensures response.status == if req.asOf.Some? && response.authorities == [] then AS_OF_UNAVAILABLE else OK
    ensures forall a :: a in response.authorities ==> Backed(repos, req, a)
  {
    var found := Lookup(repos, req, hits);
    response := Respond(found, req.asOf);
    AnswerBacked(repos, req, hits);
    if req.asOf.Some? {
      AsOfFilterRemovesNothing(repos, req, found);
    }
  }
}
