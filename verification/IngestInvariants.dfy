/**
 What every run of publications keeps: well-kept histories, stored trees and citations,
 immutability of older versions, and the exact conditions under which a publish fails.
 */
module IngestInvariants {
  import opened Prelude
  import opened LegalNodes
  import opened HierarchyCheck
  import opened Versions
  import opened IngestModel

  /** The rows of a version: a stored forest that the hierarchy rules accept. */
  ghost predicate StoredRows(versionId: string, rows: seq<FlatNode>) {
    UniqueIds(rows) && NoRepeats(Locators(rows)) &&
    forall n :: n in rows ==> n.versionId == versionId && !Blank(n.sourceLocator) && !Blank(n.contentHash)
  }

  /** The key is the locator, or ends in a colon and the locator. */
  predicate KeyFits(key: string, locator: string) {
    key == locator ||
    (var k := |key| - |locator|; k >= 1 && key[k - 1] == ':' && key[k..] == locator)
  }

  /** Citation `c` repeats what row `n` says. */
  predicate Cites(c: Citation, n: FlatNode) {
    c.nodeId == n.id && c.locator == n.sourceLocator && c.exactText == n.text && c.hash == n.contentHash &&
    c.versionId == n.versionId && KeyFits(c.key, c.locator)
  }

  ghost predicate CitesSomeRow(c: Citation, rows: seq<FlatNode>) {
    exists n :: n in rows && n.nodeType != DOCUMENT && Cites(c, n)
  }

  ghost predicate IsCited(n: FlatNode, cites: seq<Citation>) {
    exists c :: c in cites && Cites(c, n)
  }

  predicate Apart(a: Citation, b: Citation) {
    a.nodeId != b.nodeId && a.key != b.key && a.locator != b.locator
  }

  ghost predicate PairwiseApart(cites: seq<Citation>) {
    forall i, j :: 0 <= i < j < |cites| ==> Apart(cites[i], cites[j])
  }

  /** Every citation cites a row other than a DOCUMENT, each such row has one, keys are distinct. */
  ghost predicate StoredCitations(rows: seq<FlatNode>, cites: seq<Citation>) {
    (forall c :: c in cites ==> CitesSomeRow(c, rows)) &&
    (forall n :: n in rows && n.nodeType != DOCUMENT ==> IsCited(n, cites)) &&
    PairwiseApart(cites)
  }

  ghost predicate StoredVersion(st: Store, versionId: string) {
    versionId in st.nodes && versionId in st.citations &&
    StoredRows(versionId, st.nodes[versionId]) &&
    StoredCitations(st.nodes[versionId], st.citations[versionId])
  }

  ghost predicate DocumentsOk(st: Store) {
    (forall u :: u in st.documents ==> st.documents[u].url == u) &&
    (forall u, w :: u in st.documents && w in st.documents && st.documents[u].id == st.documents[w].id ==> u == w)
  }

  ghost predicate HistoryStored(st: Store, vs: seq<Version>) {
    forall i :: 0 <= i < |vs| ==> StoredVersion(st, vs[i].id)
  }

  ghost predicate HistoriesOk(st: Store) {
    forall d :: d in st.versions ==> WellKept(d, st.versions[d]) && HistoryStored(st, st.versions[d])
  }

  ghost predicate Inv(st: Store) {
    DocumentsOk(st) && HistoriesOk(st)
  }

  // ----- Citations of a fresh version -----

  lemma {:induction false} CitationsAt(q: Request, versionId: string, rows: seq<FlatNode>, c: Citation)
    ensures c in CitationsFor(q, versionId, rows) <==>
            exists n :: n in rows && n.nodeType != DOCUMENT && c == CitationOf(q, versionId, n)
    decreases |rows|
  {
    if rows != [] {
      var before := rows[..|rows| - 1];
      CitationsAt(q, versionId, before, c);
      assert rows == before + [rows[|rows| - 1]];
    }
  }

  lemma CitationKeyInjective(lawId: Option<string>, a: string, b: string)
    requires CitationKey(lawId, a) == CitationKey(lawId, b)
    ensures a == b
  {
    if Truthy(lawId) {
      var p := lawId.value + ":";
      assert a == (p + a)[|p|..] && b == (p + b)[|p|..];
    }
  }

  lemma CitationApart(q: Request, versionId: string, rows: seq<FlatNode>, k: nat, c: Citation)
    requires UniqueIds(rows) && NoRepeats(Locators(rows)) && k < |rows|
    requires c in CitationsFor(q, versionId, rows[..k])
    ensures Apart(c, CitationOf(q, versionId, rows[k]))
  {
    CitationsAt(q, versionId, rows[..k], c);
    var n :| n in rows[..k] && n.nodeType != DOCUMENT && c == CitationOf(q, versionId, n);
    var i :| 0 <= i < k && rows[i] == n;
    assert Locators(rows)[i] != Locators(rows)[k];
    if c.key == CitationKey(q.lawId, rows[k].sourceLocator) {
      CitationKeyInjective(q.lawId, n.sourceLocator, rows[k].sourceLocator);
    }
  }

  lemma {:induction false} CitationsDistinct(q: Request, versionId: string, rows: seq<FlatNode>, k: nat)
    requires UniqueIds(rows) && NoRepeats(Locators(rows)) && k <= |rows|
    ensures PairwiseApart(CitationsFor(q, versionId, rows[..k]))
    decreases k
  {
    if k > 0 {
      assert rows[..k][..k - 1] == rows[..k - 1];
      CitationsDistinct(q, versionId, rows, k - 1);
      var earlier := CitationsFor(q, versionId, rows[..k - 1]);
      forall i | 0 <= i < |earlier|
        ensures Apart(earlier[i], CitationOf(q, versionId, rows[k - 1]))
      {
        CitationApart(q, versionId, rows, k - 1, earlier[i]);
      }
    }
  }

  /** Publishing writes, for every row but DOCUMENT rows, exactly one citation that repeats it. */
  lemma FreshCitations(q: Request, versionId: string, rows: seq<FlatNode>)
    requires StoredRows(versionId, rows)
    ensures StoredCitations(rows, CitationsFor(q, versionId, rows))
  {
    var cites := CitationsFor(q, versionId, rows);
    assert rows[..|rows|] == rows;
    CitationsDistinct(q, versionId, rows, |rows|);
    forall c | c in cites
      ensures CitesSomeRow(c, rows)
    {
      CitationsAt(q, versionId, rows, c);
      var n :| n in rows && n.nodeType != DOCUMENT && c == CitationOf(q, versionId, n);
      BlankEmpty(n.contentHash);
      assert Cites(c, n);
    }
    forall n | n in rows && n.nodeType != DOCUMENT
      ensures IsCited(n, cites)
    {
      CitationsAt(q, versionId, rows, CitationOf(q, versionId, n));
      BlankEmpty(n.contentHash);
      assert Cites(CitationOf(q, versionId, n), n);
    }
  }

  lemma BlankEmpty(s: string)
    requires !Blank(s)
    ensures s != ""
  {
  }

  lemma FreshRows(ts: seq<Tree>, versionId: string)
    requires Accepted(ts)
    ensures StoredRows(versionId, Stamped(FlattenAll(ts), versionId))
  {
    var flat := FlattenAll(ts);
    var rows := Stamped(flat, versionId);
    assert Locators(rows) == Locators(flat);
    forall n | n in rows
      ensures n.versionId == versionId && !Blank(n.sourceLocator) && !Blank(n.contentHash)
    {
      var i :| 0 <= i < |rows| && rows[i] == n;
      assert flat[i] in flat;
    }
  }

  // ----- One publish -----

  /** Stored versions stay stored when a version with a new id is added. */
  lemma StoredStays(st: Store, after: Store, versionId: string, newId: string)
    requires StoredVersion(st, versionId) && newId !in st.nodes
    requires forall v :: v in st.nodes ==> v in after.nodes && after.nodes[v] == st.nodes[v]
    requires forall v :: v in st.citations && v != newId ==>
               v in after.citations && after.citations[v] == st.citations[v]
    ensures StoredVersion(after, versionId)
  {
  }

  lemma PersistedStored(st: Store, q: Request, id: string, existing: seq<Version>, number: int, from: Stamp)
    requires PersistError(q, existing, id, number, from).None? && q.freshVersion !in st.nodes
    ensures StoredVersion(Persisted(st, q, id, existing, number, from), q.freshVersion)
  {
    AcceptedMeaning(q.tree);
    FreshRows(q.tree, q.freshVersion);
    FreshCitations(q, q.freshVersion, Stamped(FlattenAll(q.tree), q.freshVersion));
  }

  lemma PersistedHistories(st: Store, q: Request, id: string, existing: seq<Version>, number: int, from: Stamp)
    requires HistoriesOk(st) && PersistError(q, existing, id, number, from).None? && q.freshVersion !in st.nodes
    requires WellKept(id, existing + [NewVersion(q, id, number, from)]) && HistoryStored(st, existing)
    ensures HistoriesOk(Persisted(st, q, id, existing, number, from))
  {
    var after := Persisted(st, q, id, existing, number, from);
    PersistedStored(st, q, id, existing, number, from);
    forall d | d in after.versions
      ensures WellKept(d, after.versions[d]) && HistoryStored(after, after.versions[d])
    {
      var vs := after.versions[d];
      forall i | 0 <= i < |vs|
        ensures StoredVersion(after, vs[i].id)
      {
        if d == id && i == |existing| {
          assert vs[i].id == q.freshVersion;
        } else {
          assert d == id ==> vs[i] == existing[i];
          assert StoredVersion(st, vs[i].id);
          StoredStays(st, after, vs[i].id, q.freshVersion);
        }
      }
    }
  }

  lemma PersistedKeepsInv(st: Store, q: Request, id: string, existing: seq<Version>, number: int, from: Stamp)
    requires Inv(st) && PersistError(q, existing, id, number, from).None? && q.freshVersion !in st.nodes
    requires WellKept(id, existing + [NewVersion(q, id, number, from)]) && HistoryStored(st, existing)
    requires forall u :: u in st.documents && st.documents[u].id == id ==> u == q.url
    ensures Inv(Persisted(st, q, id, existing, number, from))
  {
    PersistedHistories(st, q, id, existing, number, from);
  }

  lemma HistoryOk(st: Store, d: string)
    requires Inv(st)
    ensures WellKept(d, History(st, d)) && HistoryStored(st, History(st, d))
  {
  }

  /** Histories only hold ids under which rows are stored. */
  lemma FreshVersionIsNew(st: Store, vs: seq<Version>, newId: string)
    requires HistoryStored(st, vs) && newId !in st.nodes
    ensures forall v :: v in vs ==> v.id != newId
  {
    forall v | v in vs
      ensures v.id != newId
    {
      var i :| 0 <= i < |vs| && vs[i] == v;
      assert StoredVersion(st, vs[i].id);
    }
  }

  /** The history that a publish would leave on a known document with new bytes or a new parser. */
  lemma NextHistory(st: Store, q: Request, id: string, vs: seq<Version>, flag: bool)
    requires WellKept(id, vs) && HistoryStored(st, vs) && q.freshVersion !in st.nodes
    requires FindSame(vs, q.hash, q.parserId).None? && !CannotSupersede(vs, flag, q.now)
    requires ValidVersion(|vs| + 1, FromOf(q, flag), Unknown, q.hash, q.parserId, q.archiveId)
    ensures MaxNumber(vs) == |vs|
    ensures WellKept(id, SupersedeAll(vs, flag, q.now) + [NewVersion(q, id, |vs| + 1, FromOf(q, flag))])
    ensures HistoryStored(st, SupersedeAll(vs, flag, q.now))
  {
    NextNumberIsNext(id, vs);
    FreshVersionIsNew(st, vs, q.freshVersion);
    assert vs != [] ==> vs[|vs| - 1].status == PUBLISHED;
    ExtendWellKept(id, vs, flag, q.now, NewVersion(q, id, |vs| + 1, FromOf(q, flag)));
    SupersededStored(st, vs, flag, q.now);
  }

  lemma SupersededStored(st: Store, vs: seq<Version>, flag: bool, now: int)
    requires HistoryStored(st, vs)
    ensures HistoryStored(st, SupersedeAll(vs, flag, now))
  {
    forall i | 0 <= i < |vs|
      ensures StoredVersion(st, SupersedeAll(vs, flag, now)[i].id)
    {
      assert StoredVersion(st, vs[i].id);
    }
  }

  lemma PublishNewKeepsInv(st: Store, q: Request)
    requires Inv(st) && FreshIds(st, DoPublish(q)) && q.url !in st.documents
    ensures Inv(PublishNew(st, q).0)
  {
    if PublishNew(st, q).1.Published? {
      PersistedKeepsInv(st, q, q.freshDocument, [], 1, q.from);
    }
  }

  /** What a successful `PublishNext` has checked and written. */
  lemma NextShape(st: Store, q: Request, id: string, vs: seq<Version>, flag: bool)
    requires flag == CanonicalizationFlag(vs, q.hash, q.archiveId, q.parserId)
    requires PublishNext(st, q, id, vs).1.Published?
    ensures !CannotSupersede(vs, flag, q.now)
    ensures var existing := SupersedeAll(vs, flag, q.now);
            PersistError(q, existing, id, MaxNumber(vs) + 1, FromOf(q, flag)).None? &&
            PublishNext(st, q, id, vs).0 == Persisted(st, q, id, existing, MaxNumber(vs) + 1, FromOf(q, flag))
  {
  }

  lemma NotPublishedNext(st: Store, q: Request, id: string, vs: seq<Version>)
    requires !PublishNext(st, q, id, vs).1.Published?
    ensures PublishNext(st, q, id, vs).0 == st
  {
  }

  lemma NextPersisted(st: Store, q: Request, vs: seq<Version>, flag: bool)
    requires Inv(st) && q.url in st.documents && vs == History(st, st.documents[q.url].id) &&
             q.freshVersion !in st.nodes
    requires FindSame(vs, q.hash, q.parserId).None? && !CannotSupersede(vs, flag, q.now)
    requires PersistError(q, SupersedeAll(vs, flag, q.now), st.documents[q.url].id, MaxNumber(vs) + 1,
                          FromOf(q, flag)).None?
    ensures Inv(Persisted(st, q, st.documents[q.url].id, SupersedeAll(vs, flag, q.now), MaxNumber(vs) + 1,
                          FromOf(q, flag)))
  {
    var id := st.documents[q.url].id;
    HistoryOk(st, id);
    NextNumberIsNext(id, vs);
    NextHistory(st, q, id, vs, flag);
    PersistedKeepsInv(st, q, id, SupersedeAll(vs, flag, q.now), |vs| + 1, FromOf(q, flag));
  }

  lemma PublishNextKeepsInv(st: Store, q: Request, id: string, vs: seq<Version>)
    requires Inv(st) && q.freshVersion !in st.nodes && q.url in st.documents && id == st.documents[q.url].id
    requires vs == History(st, id) && FindSame(vs, q.hash, q.parserId).None?
    ensures Inv(PublishNext(st, q, id, vs).0)
  {
    var next := PublishNext(st, q, id, vs);
    if next.1.Published? {
      PublishedNextKeepsInv(st, q, id, vs, next.0);
    } else {
      NotPublishedNext(st, q, id, vs);
    }
  }

  lemma PublishedNextKeepsInv(st: Store, q: Request, id: string, vs: seq<Version>, next: Store)
    requires Inv(st) && q.freshVersion !in st.nodes && q.url in st.documents && id == st.documents[q.url].id
    requires vs == History(st, id) && FindSame(vs, q.hash, q.parserId).None?
    requires PublishNext(st, q, id, vs).1.Published? && next == PublishNext(st, q, id, vs).0
    ensures Inv(next)
  {
    var flag := CanonicalizationFlag(vs, q.hash, q.archiveId, q.parserId);
    NextShape(st, q, id, vs, flag);
    NextPersisted(st, q, vs, flag);
  }

  lemma PublishKeepsInv(st: Store, q: Request)
    requires Inv(st) && FreshIds(st, DoPublish(q))
    ensures Inv(Publish(st, q).0)
  {
    if q.url !in st.documents {
      PublishNewKeepsInv(st, q);
    } else {
      var id := st.documents[q.url].id;
      var vs := History(st, id);
      if FindSame(vs, q.hash, q.parserId).None? {
        PublishNextKeepsInv(st, q, id, vs);
      }
    }
  }

  lemma ApplyKeepsInv(st: Store, a: Action)
    requires Inv(st) && FreshIds(st, a)
    ensures Inv(Apply(st, a))
  {
    match a {
      case DoPublish(q) => PublishKeepsInv(st, q);
      case DoReview(url, title, freshDocument) =>
    }
  }

  /** From an empty store, every run of publishes and reviews keeps the invariant. */
  lemma {:induction false} RunKeepsInv(actions: seq<Action>)
    requires FreshRun(actions)
    ensures Inv(RunAll(actions))
    decreases |actions|
  {
    if actions != [] {
      RunKeepsInv(actions[..|actions| - 1]);
      ApplyKeepsInv(RunAll(actions[..|actions| - 1]), actions[|actions| - 1]);
    }
  }

  /** What the invariant says about one document, read off without the definitions. */
  lemma DocumentHistory(st: Store, d: string)
    requires Inv(st) && History(st, d) != []
    ensures var vs := History(st, d);
            Current(vs) == Some(vs[|vs| - 1]) &&
            (forall i :: 0 <= i < |vs| ==> vs[i].number == i + 1 && (vs[i].status == PUBLISHED <==> i == |vs| - 1)) &&
            (forall i, j :: 0 <= i < j < |vs| ==> vs[i].hash != vs[j].hash || vs[i].parserId != vs[j].parserId)
  {
    HistoryOk(st, d);
    CurrentIsLast(d, History(st, d));
  }
}
