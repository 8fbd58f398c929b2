/**
 What each retrieval route returns, route by route, stated on the request, the stored
 versions and the citation table: everything that answers, once, and in order.
 */
module RetrievalComplete {
  import opened Prelude
  import opened LegalNodes
  import opened Hierarchy
  import opened Versions
  import opened IngestModel
  import opened IngestInvariants
  import opened Citations
  import opened Retrieval

  // ----- The first of each -----

  /** Some pick at or before place `k` has the key of that place. */
  ghost predicate PickedFor<T>(all: seq<T>, key: T -> string, picks: seq<nat>, k: nat) {
    exists i :: 0 <= i < |picks| && picks[i] <= k < |all| && key(all[picks[i]]) == key(all[k])
  }

  /** The picks are places of fitting elements among the first `n`. */
  ghost predicate PicksFit<T>(all: seq<T>, n: nat, fits: T -> bool, picks: seq<nat>) {
    forall i :: 0 <= i < |picks| ==> picks[i] < n <= |all| && fits(all[picks[i]])
  }

  ghost predicate PicksApart<T>(all: seq<T>, key: T -> string, picks: seq<nat>) {
    forall i, j :: 0 <= i < j < |picks| && picks[i] < |all| && picks[j] < |all| ==>
      picks[i] < picks[j] && key(all[picks[i]]) != key(all[picks[j]])
  }

  ghost predicate AllPicked<T>(all: seq<T>, n: nat, fits: T -> bool, key: T -> string, picks: seq<nat>) {
    forall k :: 0 <= k < n <= |all| && fits(all[k]) ==> PickedFor(all, key, picks, k)
  }

  /** `picks` are, in order, the places of the first fitting element of every key among the first `n`. */
  ghost predicate FirstOfEach<T>(all: seq<T>, n: nat, fits: T -> bool, key: T -> string, picks: seq<nat>) {
    PicksFit(all, n, fits, picks) && PicksApart(all, key, picks) && AllPicked(all, n, fits, key, picks)
  }

  ghost predicate IsNew<T>(all: seq<T>, n: nat, fits: T -> bool, key: T -> string)
    requires n < |all|
  {
    fits(all[n]) && forall j :: 0 <= j < n && fits(all[j]) ==> key(all[j]) != key(all[n])
  }

  lemma PickNew<T>(all: seq<T>, n: nat, fits: T -> bool, key: T -> string, picks: seq<nat>)
    requires n < |all| && FirstOfEach(all, n, fits, key, picks) && IsNew(all, n, fits, key)
    ensures FirstOfEach(all, n + 1, fits, key, picks + [n])
  {
    assert PicksApart(all, key, picks + [n]);
    forall k | 0 <= k < n + 1 && fits(all[k])
      ensures PickedFor(all, key, picks + [n], k)
    {
      if k < n {
        StillPicked(all, key, picks, picks + [n], k);
      } else {
        assert (picks + [n])[|picks|] == n;
      }
    }
  }

  lemma PickOld<T>(all: seq<T>, n: nat, fits: T -> bool, key: T -> string, picks: seq<nat>)
    requires n < |all| && FirstOfEach(all, n, fits, key, picks) && !IsNew(all, n, fits, key)
    ensures FirstOfEach(all, n + 1, fits, key, picks)
  {
    forall k | 0 <= k < n + 1 && fits(all[k])
      ensures PickedFor(all, key, picks, k)
    {
      if k == n {
        var j :| 0 <= j < n && fits(all[j]) && key(all[j]) == key(all[n]);
        PickedAlike(all, key, picks, j, n);
      }
    }
  }

  lemma PickedAlike<T>(all: seq<T>, key: T -> string, picks: seq<nat>, j: nat, k: nat)
    requires j <= k < |all| && PickedFor(all, key, picks, j) && key(all[j]) == key(all[k])
    ensures PickedFor(all, key, picks, k)
  {
  }

  lemma StillPicked<T>(all: seq<T>, key: T -> string, picks: seq<nat>, next: seq<nat>, k: nat)
    requires PickedFor(all, key, picks, k) && picks <= next
    ensures PickedFor(all, key, next, k)
  {
    var i :| 0 <= i < |picks| && picks[i] <= k < |all| && key(all[picks[i]]) == key(all[k]);
    assert next[i] == picks[i];
  }

  /** The rows are those at the picked places. */
  ghost predicate RowsAt<T>(rows: seq<T>, all: seq<T>, picks: seq<nat>) {
    |rows| == |picks| && forall i :: 0 <= i < |picks| ==> picks[i] < |all| && rows[i] == all[picks[i]]
  }

  ghost function Grown<T>(all: seq<T>, n: nat, fits: T -> bool, key: T -> string, rows: seq<T>): (r: seq<T>)
    requires n < |all|
  {
    if IsNew(all, n, fits, key) then rows + [all[n]] else rows
  }

  /** One more element: picked when it is new. */
  lemma PickStep<T>(all: seq<T>, n: nat, fits: T -> bool, key: T -> string, picks: seq<nat>, rows: seq<T>)
    returns (next: seq<nat>)
    requires n < |all| && FirstOfEach(all, n, fits, key, picks) && RowsAt(rows, all, picks)
    ensures FirstOfEach(all, n + 1, fits, key, next)
    ensures RowsAt(Grown(all, n, fits, key, rows), all, next)
  {
    if IsNew(all, n, fits, key) {
      PickNew(all, n, fits, key, picks);
      next := picks + [n];
    } else {
      PickOld(all, n, fits, key, picks);
      next := picks;
    }
  }

  /** Starting from nothing, one element at a time. */
  ghost predicate Gathers<T>(all: seq<T>, fits: T -> bool, key: T -> string, steps: seq<seq<T>>) {
    |steps| == |all| + 1 && steps[0] == [] &&
    forall i :: 0 <= i < |all| ==> steps[i + 1] == Grown(all, i, fits, key, steps[i])
  }

  lemma {:induction false} Picks<T>(all: seq<T>, n: nat, fits: T -> bool, key: T -> string, steps: seq<seq<T>>)
    returns (picks: seq<nat>)
    requires Gathers(all, fits, key, steps) && n <= |all|
    ensures FirstOfEach(all, n, fits, key, picks) && RowsAt(steps[n], all, picks)
  {
    picks := [];
    if n > 0 {
      var before := Picks(all, n - 1, fits, key, steps);
      picks := PickStep(all, n - 1, fits, key, before, steps[n - 1]);
    }
  }

  // ----- Routes over the citation table -----

  /** The version id, a colon, and the node id. */
  function Provision(): (key: Row -> string) {
    (r: Row) => r.version.id + ":" + r.node.id
  }

  /** The authority reports the cited node of the row and, without a title, shows its locator. */
  predicate ReportsRow(a: Authority, r: Row) {
    Reports(a, r.node, r.version) && (r.node.title.None? ==> a.title == r.node.sourceLocator)
  }

  /** The authorities report the rows at these places. */
  predicate ReportsAt(found: seq<Authority>, table: seq<Row>, picks: seq<nat>) {
    |found| == |picks| && forall i :: 0 <= i < |found| ==> picks[i] < |table| && ReportsRow(found[i], table[picks[i]])
  }

  /** The authorities report, in table order, the first fitting row of every provision: those at `picks`. */
  ghost predicate Lists(found: seq<Authority>, table: seq<Row>, fits: Row -> bool, picks: seq<nat>) {
    FirstOfEach(table, |table|, fits, Provision(), picks) && ReportsAt(found, table, picks)
  }

  predicate OfProvision(a: Authority, r: Row) {
    a.versionId + ":" + a.nodeId == r.version.id + ":" + r.node.id
  }

  /** Every fitting row has an authority of its provision. */
  lemma ListsAll(found: seq<Authority>, table: seq<Row>, fits: Row -> bool, picks: seq<nat>, r: Row)
    returns (a: Authority)
    requires Lists(found, table, fits, picks) && r in table && fits(r)
    ensures a in found && OfProvision(a, r)
  {
    var k :| 0 <= k < |table| && table[k] == r;
    assert PickedFor(table, Provision(), picks, k);
    var i :| 0 <= i < |picks| && picks[i] <= k < |table| && Provision()(table[picks[i]]) == Provision()(table[k]);
    a := found[i];
    assert ReportsRow(a, table[picks[i]]);
  }

  /** Every authority reports a fitting row. */
  lemma ListsOnly(found: seq<Authority>, table: seq<Row>, fits: Row -> bool, picks: seq<nat>, a: Authority)
    returns (r: Row)
    requires Lists(found, table, fits, picks) && a in found
    ensures r in table && fits(r) && ReportsRow(a, r)
  {
    var i :| 0 <= i < |found| && found[i] == a;
    r := table[picks[i]];
  }

  /** No two authorities are of one provision. */
  lemma ListsOnce(found: seq<Authority>, table: seq<Row>, fits: Row -> bool, picks: seq<nat>, i: nat, j: nat)
    requires Lists(found, table, fits, picks) && i < j < |found|
    ensures found[i].versionId + ":" + found[i].nodeId != found[j].versionId + ":" + found[j].nodeId
  {
    assert ReportsRow(found[i], table[picks[i]]) && ReportsRow(found[j], table[picks[j]]);
    assert Provision()(table[picks[i]]) != Provision()(table[picks[j]]);
  }

  lemma JoinedKey(repos: Repos, r: Row)
    requires Consistent(repos) && r in repos.table
    ensures ProvisionKey(r) == Provision()(r) && ReportsRow(MatchAuthority(r), r)
  {
    MatchReports(repos, r);
    assert Joined(repos.store, r) && VersionSound(repos.store, r.version);
    var n :| n in repos.store.nodes[r.version.id] && n.nodeType != DOCUMENT && Cites(r.citation, n);
    LookupUnique(repos.store.nodes[r.version.id], n);
    LookupUnique(repos.store.nodes[r.version.id], r.node);
  }

  /** The lookup over the table picks the first answer of every provision. */
  lemma AnswerPicks(repos: Repos, q: LookupQuery, fits: Row -> bool) returns (picks: seq<nat>)
    requires Consistent(repos)
    requires forall r :: fits(r) <==> Answers(q, repos.test, r)
    ensures FirstOfEach(repos.table, |repos.table|, fits, Provision(), picks)
    ensures RowsAt(FirstAnswers(repos.table, q, repos.test, |repos.table|), repos.table, picks)
  {
    var all := repos.table;
    var steps := seq(|all| + 1, n requires 0 <= n <= |all| => FirstAnswers(all, q, repos.test, n));
    forall i | 0 <= i < |all|
      ensures steps[i + 1] == Grown(all, i, fits, Provision(), steps[i])
    {
      NewAnswer(repos, q, fits, i);
    }
    picks := Picks(all, |all|, fits, Provision(), steps);
  }

  lemma NewAnswer(repos: Repos, q: LookupQuery, fits: Row -> bool, n: nat)
    requires Consistent(repos) && n < |repos.table|
    requires forall r :: fits(r) <==> Answers(q, repos.test, r)
    ensures FirstAnswers(repos.table, q, repos.test, n + 1) ==
            Grown(repos.table, n, fits, Provision(), FirstAnswers(repos.table, q, repos.test, n))
  {
    forall j | 0 <= j <= n
      ensures ProvisionKey(repos.table[j]) == Provision()(repos.table[j])
    {
      assert repos.table[j] in repos.table;
      JoinedKey(repos, repos.table[j]);
    }
    assert IsFirstAnswer(repos.table, q, repos.test, n) <==> IsNew(repos.table, n, fits, Provision());
  }

  lemma QueryLists(repos: Repos, q: LookupQuery, fits: Row -> bool) returns (picks: seq<nat>)
    requires Consistent(repos)
    requires forall r :: fits(r) <==> Answers(q, repos.test, r)
    ensures Lists(QueryAnswer(repos, q), repos.table, fits, picks)
  {
    picks := AnswerPicks(repos, q, fits);
    RowsReported(repos, FirstAnswers(repos.table, q, repos.test, |repos.table|), picks);
  }

  lemma RowsReported(repos: Repos, rows: seq<Row>, picks: seq<nat>)
    requires Consistent(repos) && RowsAt(rows, repos.table, picks)
    ensures ReportsAt(MatchAuthorities(rows), repos.table, picks)
  {
    forall i | 0 <= i < |rows|
      ensures ReportsRow(MatchAuthority(rows[i]), rows[i])
    {
      assert rows[i] in repos.table;
      JoinedKey(repos, rows[i]);
    }
  }

  // ----- Cited phrases -----

  /** A row is meant by a cited phrase at the instant of the request. */
  function MeantBy(repos: Repos, c: Cited, asOf: Option<Stamp>): (fits: Row -> bool) {
    (r: Row) => Meant(Candidate(c.query, c.nodeId, None, None, asOf), repos.parse(c.query), repos.test, r)
  }

  function Concat(parts: seq<seq<Authority>>): (r: seq<Authority>)
    decreases |parts|
  {
    if parts == [] then [] else Concat(parts[..|parts| - 1]) + parts[|parts| - 1]
  }

  lemma PhraseLists(repos: Repos, c: Cited, asOf: Option<Stamp>) returns (picks: seq<nat>)
    requires Consistent(repos)
    ensures Lists(QueryAnswer(repos, CitedQuery(c, repos.parse(c.query), asOf)), repos.table, MeantBy(repos, c, asOf),
                  picks)
  {
    var candidate := Candidate(c.query, c.nodeId, None, None, asOf);
    var q := CitedQuery(c, repos.parse(c.query), asOf);
    forall r
      ensures MeantBy(repos, c, asOf)(r) <==> Answers(q, repos.test, r)
    {
      MeantAnswers(candidate, repos.parse(c.query), repos.test, r);
    }
    picks := QueryLists(repos, q, MeantBy(repos, c, asOf));
  }

  /** The part of a phrase lists what the phrase means. */
  ghost predicate PhraseListed(repos: Repos, c: Cited, asOf: Option<Stamp>, part: seq<Authority>) {
    exists picks :: Lists(part, repos.table, MeantBy(repos, c, asOf), picks)
  }

  ghost predicate PartsList(repos: Repos, req: RetrieveRequest, parts: seq<seq<Authority>>) {
    |parts| == |req.cited| &&
    forall k :: 0 <= k < |parts| ==> PhraseListed(repos, req.cited[k], req.asOf, parts[k])
  }

  /** The authorities found for the first `n` phrases, phrase by phrase. */
  function Parts(repos: Repos, req: RetrieveRequest, n: nat): (parts: seq<seq<Authority>>)
    requires n <= |req.cited|
    ensures |parts| == n
  {
    seq(n, k requires 0 <= k < n =>
      QueryAnswer(repos, CitedQuery(req.cited[k], repos.parse(req.cited[k].query), req.asOf)))
  }

  lemma {:induction false} CitedConcat(repos: Repos, req: RetrieveRequest, n: nat)
    requires n <= |req.cited|
    ensures CitedAnswer(repos, req, n) == Concat(Parts(repos, req, n))
  {
    if n > 0 {
      CitedConcat(repos, req, n - 1);
      var c := req.cited[n - 1];
      var part := QueryAnswer(repos, CitedQuery(c, repos.parse(c.query), req.asOf));
      assert Parts(repos, req, n) == Parts(repos, req, n - 1) + [part];
      ConcatSnoc(Parts(repos, req, n - 1), part);
    }
  }

  lemma ConcatSnoc(parts: seq<seq<Authority>>, part: seq<Authority>)
    ensures Concat(parts + [part]) == Concat(parts) + part
  {
    assert (parts + [part])[..|parts|] == parts;
  }

  /**
   Without ids, key and locator, the answer is one part for every cited phrase, in order. The part of a
   phrase reports each provision that the phrase means, once and in table order, and no other.
   */
  lemma CitedComplete(repos: Repos, req: RetrieveRequest, hits: seq<SearchHit>)
    returns (parts: seq<seq<Authority>>)
    requires Consistent(repos) && !Truthy(req.nodeId) && !Truthy(req.documentId)
    requires !Truthy(req.citationKey) && !Truthy(req.locator) && req.cited != []
    ensures Answer(repos, req, hits) == Concat(parts) && PartsList(repos, req, parts)
  {
    parts := Parts(repos, req, |req.cited|);
    CitedConcat(repos, req, |req.cited|);
    forall k | 0 <= k < |parts|
      ensures PhraseListed(repos, req.cited[k], req.asOf, parts[k])
    {
      var picks := PhraseLists(repos, req.cited[k], req.asOf);
    }
  }

  lemma {:induction false} ConcatMembers(parts: seq<seq<Authority>>, k: nat)
    requires k < |parts|
    ensures forall a :: a in parts[k] ==> a in Concat(parts)
    decreases |parts|
  {
    if k < |parts| - 1 {
      ConcatMembers(parts[..|parts| - 1], k);
    }
  }

  /** In particular, whatever any of the phrases means is answered. */
  lemma CitedProvisionAnswered(repos: Repos, req: RetrieveRequest, hits: seq<SearchHit>, k: nat, r: Row)
    returns (a: Authority)
    requires Consistent(repos) && !Truthy(req.nodeId) && !Truthy(req.documentId)
    requires !Truthy(req.citationKey) && !Truthy(req.locator) && k < |req.cited| && r in repos.table
    requires Meant(Candidate(req.cited[k].query, req.cited[k].nodeId, None, None, req.asOf),
                   repos.parse(req.cited[k].query), repos.test, r)
    ensures a in Answer(repos, req, hits) && OfProvision(a, r)
  {
    var parts := CitedComplete(repos, req, hits);
    var fits := MeantBy(repos, req.cited[k], req.asOf);
    assert PhraseListed(repos, req.cited[k], req.asOf, parts[k]);
    var picks :| Lists(parts[k], repos.table, fits, picks);
    a := ListsAll(parts[k], repos.table, fits, picks, r);
    ConcatMembers(parts, k);
  }

  // ----- A key or a locator -----

  /** What a key or locator asks for: rows named by text, key, locator or numbers, in documents with the title. */
  function MeantByKey(repos: Repos, req: RetrieveRequest): (fits: Row -> bool) {
    (r: Row) =>
      var text := if req.citationKey.Some? then req.citationKey.value else if req.locator.Some? then req.locator.value
                  else req.question;
      var parsed := repos.parse(text);
      (r.citation.key == text || r.citation.locator == text || Named(req.citationKey, r.citation.key) ||
       Named(if req.locator.Some? then req.locator else parsed.locator, r.citation.locator) ||
       MeansNumbers(parsed, r.node)) &&
      ShownAt(r.version, req.asOf) &&
      (Truthy(parsed.titleHint) ==> repos.test(r.title, parsed.titleHint.value))
  }

  /** With a key or a locator, and no id, exactly the provisions asked for are answered, each once. */
  lemma KeyComplete(repos: Repos, req: RetrieveRequest, hits: seq<SearchHit>) returns (picks: seq<nat>)
    requires Consistent(repos) && !Truthy(req.nodeId) && !Truthy(req.documentId)
    requires Truthy(req.citationKey) || Truthy(req.locator)
    ensures Lists(Answer(repos, req, hits), repos.table, MeantByKey(repos, req), picks)
  {
    var q := KeyQuery(req, repos.parse(KeyText(req)));
    forall r
      ensures MeantByKey(repos, req)(r) <==> Answers(q, repos.test, r)
    {
      KeyAnswers(repos, req, r);
    }
    picks := QueryLists(repos, q, MeantByKey(repos, req));
  }

  lemma KeyAnswers(repos: Repos, req: RetrieveRequest, r: Row)
    ensures MeantByKey(repos, req)(r) <==> Answers(KeyQuery(req, repos.parse(KeyText(req))), repos.test, r)
  {
  }

  // ----- A node or a document -----

  /** The authority reports the row; without a title it shows the article's number, or else the locator. */
  predicate ReportsNode(a: Authority, n: FlatNode, v: Version) {
    Reports(a, n, v) &&
    (n.title.None? ==> a.title == if Truthy(n.article) then "Article " + n.article.value else n.sourceLocator)
  }

  /** Both bounds are set and enclose the instant. */
  predicate Encloses(v: Version, instant: Stamp) {
    instant.At? && v.from.Some? && v.to.Some? && v.from.value <= instant.ms < v.to.value
  }

  /**
   A node id is answered exactly when the node and its version are known and the version encloses
   the instant, if any.
   */
  lemma NodeComplete(repos: Repos, req: RetrieveRequest, hits: seq<SearchHit>)
    requires Consistent(repos) && Truthy(req.nodeId)
    ensures var found, id := Answer(repos, req, hits), req.nodeId.value;
            if id in repos.nodeById && repos.nodeById[id].versionId in repos.versionById &&
               (req.asOf.Some? ==> Encloses(repos.versionById[repos.nodeById[id].versionId], req.asOf.value))
            then |found| == 1 &&
                 ReportsNode(found[0], repos.nodeById[id], repos.versionById[repos.nodeById[id].versionId])
            else found == []
  {
  }

  /** The version with the greatest number among those that may be shown. */
  ghost predicate LastShown(vs: seq<Version>, asOf: Option<Stamp>, k: nat) {
    k < |vs| && ShownAt(vs[k], asOf) && forall j :: k < j < |vs| ==> !ShownAt(vs[j], asOf)
  }

  predicate ReportsNodes(found: seq<Authority>, listed: seq<FlatNode>, v: Version) {
    |found| == |listed| && forall i :: 0 <= i < |found| ==> ReportsNode(found[i], listed[i], v)
  }

  /** These are the rows whose chain of parents ends, each once. */
  ghost predicate EachOnce(listed: seq<FlatNode>, rows: seq<FlatNode>) {
    NoRepeats(listed) && forall n :: n in listed <==> n in rows && !Endless(rows, n)
  }

  /** The rows whose chain of parents ends are listed once each, in the order of the forest they form. */
  ghost predicate ListsRows(found: seq<Authority>, rows: seq<FlatNode>, v: Version) {
    exists ts :: MatchesForest(rows, ts) && EachOnce(FlattenAll(ts), rows) && ReportsNodes(found, FlattenAll(ts), v)
  }

  lemma {:induction false} CurrentShown(vs: seq<Version>) returns (k: nat)
    ensures Current(vs).Some? ==> LastShown(vs, None, k) && Current(vs) == Some(vs[k])
    ensures Current(vs).None? ==> forall i :: 0 <= i < |vs| ==> !ShownAt(vs[i], None)
    decreases |vs|
  {
    k := 0;
    if vs != [] {
      if vs[|vs| - 1].status == PUBLISHED {
        k := |vs| - 1;
      } else {
        k := CurrentShown(vs[..|vs| - 1]);
      }
    }
  }

  lemma {:induction false} AsOfShown(vs: seq<Version>, instant: Stamp) returns (k: nat)
    ensures AsOf(vs, instant).Some? ==> LastShown(vs, Some(instant), k) && AsOf(vs, instant) == Some(vs[k])
    ensures AsOf(vs, instant).None? ==> forall i :: 0 <= i < |vs| ==> !ShownAt(vs[i], Some(instant))
    decreases |vs|
  {
    k := 0;
    if vs != [] {
      if ShownAt(vs[|vs| - 1], Some(instant)) {
        k := |vs| - 1;
      } else {
        k := AsOfShown(vs[..|vs| - 1], instant);
      }
    }
  }

  /**
   A document id is answered from its last version that may be shown, by every row of that version whose
   chain of parents ends, each once; without such a version by nothing.
   */
  lemma DocumentComplete(repos: Repos, req: RetrieveRequest, hits: seq<SearchHit>) returns (k: nat)
    requires Consistent(repos) && !Truthy(req.nodeId) && Truthy(req.documentId)
    ensures var vs := History(repos.store, req.documentId.value);
            if exists i :: 0 <= i < |vs| && ShownAt(vs[i], req.asOf)
            then LastShown(vs, req.asOf, k) && vs[k].id in repos.store.nodes &&
                 ListsRows(Answer(repos, req, hits), repos.store.nodes[vs[k].id], vs[k])
            else Answer(repos, req, hits) == []
  {
    var vs := History(repos.store, req.documentId.value);
    match req.asOf {
      case None => k := CurrentShown(vs);
      case Some(instant) => k := AsOfShown(vs, instant);
    }
    if Applicable(repos.store, req.documentId.value, req.asOf).Some? {
      assert vs[k] in vs;
      assert VersionSound(repos.store, vs[k]);
      RowsListed(repos.store.nodes[vs[k].id], vs[k]);
    }
  }

  lemma RowsListed(rows: seq<FlatNode>, v: Version)
    requires UniqueIds(rows) && NoEmptyIds(rows)
    ensures ListsRows(AuthoritiesOf(FlattenAll(AssembleForest(rows)), v), rows, v)
  {
    var ts := AssembleForest(rows);
    AssemblyMatches(rows);
    FlattenOfAssembly(rows, ts);
    ListedReported(FlattenAll(ts), v);
    assert EachOnce(FlattenAll(ts), rows);
  }

  lemma ListedReported(listed: seq<FlatNode>, v: Version)
    ensures ReportsNodes(AuthoritiesOf(listed, v), listed, v)
  {
  }

  // ----- An open question -----

  /** The document id, a colon, and the locator. */
  function Place(): (key: SearchHit -> string) {
    (h: SearchHit) => h.version.documentId + ":" + h.node.sourceLocator
  }

  function EligibleAt(asOf: Option<Stamp>): (fits: SearchHit -> bool) {
    (h: SearchHit) => asOf.Some? ==> Encloses(h.version, asOf.value)
  }

  lemma HitPicks(hits: seq<SearchHit>, asOf: Option<Stamp>) returns (picks: seq<nat>)
    ensures FirstOfEach(hits, |hits|, EligibleAt(asOf), Place(), picks)
    ensures RowsAt(Firsts(hits, asOf, |hits|), hits, picks)
  {
    var steps := seq(|hits| + 1, n requires 0 <= n <= |hits| => Firsts(hits, asOf, n));
    forall i | 0 <= i < |hits|
      ensures steps[i + 1] == Grown(hits, i, EligibleAt(asOf), Place(), steps[i])
    {
      NewHit(hits, asOf, i);
    }
    picks := Picks(hits, |hits|, EligibleAt(asOf), Place(), steps);
  }

  lemma NewHit(hits: seq<SearchHit>, asOf: Option<Stamp>, n: nat)
    requires n < |hits|
    ensures Firsts(hits, asOf, n + 1) == Grown(hits, n, EligibleAt(asOf), Place(), Firsts(hits, asOf, n))
  {
    assert forall h :: HitKey(h) == Place()(h) && (Eligible(h, asOf) <==> EligibleAt(asOf)(h));
    assert IsFirst(hits, asOf, n) <==> IsNew(hits, n, EligibleAt(asOf), Place());
  }

  /**
   An open question is answered, in rank order, by the best ranked eligible hit of every document and
   locator; a blank one by nothing.
   */
  lemma QuestionComplete(repos: Repos, req: RetrieveRequest, hits: seq<SearchHit>) returns (picks: seq<nat>)
    requires !Truthy(req.nodeId) && !Truthy(req.documentId) && !Truthy(req.citationKey) && !Truthy(req.locator)
    requires req.cited == []
    ensures Trim(req.question) == "" ==> Answer(repos, req, hits) == []
    ensures Trim(req.question) != "" ==>
              FirstOfEach(hits, |hits|, EligibleAt(req.asOf), Place(), picks) &&
              |picks| == |Answer(repos, req, hits)| &&
              forall i :: 0 <= i < |picks| ==>
                ReportsNode(Answer(repos, req, hits)[i], hits[picks[i]].node, hits[picks[i]].version)
  {
    picks := HitPicks(hits, req.asOf);
  }

  /** Where document ids hold no colon, hits of different documents or locators are kept apart. */
  lemma PlacesApart(a: SearchHit, b: SearchHit)
    requires ':' !in a.version.documentId && ':' !in b.version.documentId
    ensures Place()(a) == Place()(b) <==>
              a.version.documentId == b.version.documentId && a.node.sourceLocator == b.node.sourceLocator
  {
    if Place()(a) == Place()(b) {
      ColonSplits(a.version.documentId, a.node.sourceLocator, b.version.documentId, b.node.sourceLocator);
    }
  }

  /** Where version ids hold no colon, rows of different versions or nodes are kept apart. */
  lemma ProvisionsApart(a: Row, b: Row)
    requires ':' !in a.version.id && ':' !in b.version.id
    ensures Provision()(a) == Provision()(b) <==> a.version.id == b.version.id && a.node.id == b.node.id
  {
    if Provision()(a) == Provision()(b) {
      ColonSplits(a.version.id, a.node.id, b.version.id, b.node.id);
    }
  }
}
