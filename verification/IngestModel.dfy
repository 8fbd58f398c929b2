/**
 Publication as a transition on the corpus store: what one `publish` call does to
 documents, version histories, node rows and citations, or why it is rolled back.
 */
module IngestModel {
  import opened Prelude
  import opened LegalNodes
  import opened HierarchyCheck
  import opened Versions

  datatype Document = Document(id: string, url: string, title: string, inForce: bool)

  datatype Citation = Citation(
    versionId: string, nodeId: string, key: string, locator: string, exactText: string, url: string, hash: string)

  /**
   The tables. Documents are keyed by their unique canonical URL, histories by document id
   in number order, node rows and citations by version id in insertion order.
   */
  datatype Store = Store(
    documents: map<string, Document>,
    versions: map<string, seq<Version>>,
    nodes: map<string, seq<FlatNode>>,
    citations: map<string, seq<Citation>>)

  const EMPTY_STORE := Store(map[], map[], map[], map[])

  /** A parsed document ready to publish, the clock reading, and two fresh ids. */
  datatype Request = Request(
    url: string, hash: string, parserId: string, archiveId: string, lawId: Option<string>,
    title: string, from: Stamp, tree: seq<Tree>, now: int, freshDocument: string, freshVersion: string)

  datatype Failure = InvalidVersion | BrokenHierarchy(error: HierarchyError) | Overlap
  datatype Outcome =
    | Unchanged(documentId: string, versionId: string)
    | Published(documentId: string, versionId: string)
    | Failed(reason: Failure)

  function History(st: Store, documentId: string): (r: seq<Version>) {
    if documentId in st.versions then st.versions[documentId] else []
  }

  // ----- Node rows and citations -----

  /** `replaceForVersion`: every row is stamped with the version it is stored under. */
  function Stamped(rows: seq<FlatNode>, versionId: string): (r: seq<FlatNode>)
    ensures |r| == |rows| && forall i :: 0 <= i < |r| ==> r[i] == rows[i].(versionId := versionId)
  {
    seq(|rows|, i requires 0 <= i < |rows| => rows[i].(versionId := versionId))
  }

  function CitationKey(lawId: Option<string>, locator: string): (r: string) {
    if Truthy(lawId) then lawId.value + ":" + locator else locator
  }

  function CitationOf(q: Request, versionId: string, n: FlatNode): (r: Citation) {
    Citation(versionId, n.id, CitationKey(q.lawId, n.sourceLocator), n.sourceLocator, n.text, q.url,
             if n.contentHash != "" then n.contentHash else q.hash)
  }

  /** One citation for every row but DOCUMENT rows, in row order. */
  function CitationsFor(q: Request, versionId: string, rows: seq<FlatNode>): (r: seq<Citation>)
    decreases |rows|
  {
    if rows == [] then []
    else CitationsFor(q, versionId, rows[..|rows| - 1]) +
         if rows[|rows| - 1].nodeType == DOCUMENT then [] else [CitationOf(q, versionId, rows[|rows| - 1])]
  }

  // ----- Publishing -----

  function FindSame(vs: seq<Version>, hash: string, parserId: string): (r: Option<Version>)
    ensures r.Some? ==> r.value in vs && r.value.hash == hash && r.value.parserId == parserId
    ensures r.None? ==> forall v :: v in vs ==> v.hash != hash || v.parserId != parserId
  {
    if vs == [] then None
    else if vs[0].hash == hash && vs[0].parserId == parserId then Some(vs[0])
    else FindSame(vs[1..], hash, parserId)
  }

  function BoundOf(s: Stamp): (r: Option<int>) {
    if s.At? then Some(s.ms) else None
  }

  function NewVersion(q: Request, documentId: string, number: int, from: Stamp): (r: Version) {
    Version(q.freshVersion, documentId, number, BoundOf(from), None, q.hash, q.parserId, PUBLISHED, q.archiveId)
  }

  /** The checks of `persistWith`, in order, against the rows already saved for the document. */
  function PersistError(q: Request, existing: seq<Version>, documentId: string, number: int, from: Stamp)
    : (r: Option<Failure>)
  {
    var error := FirstError(VisitsAll(q.tree, None), {}, {});
    if !ValidVersion(number, from, Unknown, q.hash, q.parserId, q.archiveId) then Some(InvalidVersion)
    else if error.Some? then Some(BrokenHierarchy(error.value))
    else if exists i, j :: 0 <= i < j <= |existing| &&
              Clash((existing + [NewVersion(q, documentId, number, from)])[i],
                    (existing + [NewVersion(q, documentId, number, from)])[j]) then Some(Overlap)
    else None
  }

  /** The store after `persistWith` and `publishCitations` have gone through. */
  function Persisted(st: Store, q: Request, documentId: string, existing: seq<Version>, number: int, from: Stamp)
    : (r: Store)
  {
    var rows := Stamped(FlattenAll(q.tree), q.freshVersion);
    Store(st.documents[q.url := Document(documentId, q.url, q.title, true)],
          st.versions[documentId := existing + [NewVersion(q, documentId, number, from)]],
          st.nodes[q.freshVersion := rows],
          st.citations[q.freshVersion := CitationsFor(q, q.freshVersion, rows)])
  }

  /** Some published row cannot be saved as superseded. */
  predicate CannotSupersede(vs: seq<Version>, canonicalization: bool, now: int) {
    exists i :: 0 <= i < |vs| && vs[i].status == PUBLISHED && !ValidRow(Supersede(vs[i], canonicalization, now))
  }

  function FromOf(q: Request, canonicalization: bool): (r: Stamp) {
    if canonicalization then Unknown else q.from
  }

  /** `publish` for a page without a document. */
  function PublishNew(st: Store, q: Request): (r: (Store, Outcome)) {
    match PersistError(q, [], q.freshDocument, 1, q.from)
    case Some(f) => (st, Failed(f))
    case None => (Persisted(st, q, q.freshDocument, [], 1, q.from), Published(q.freshDocument, q.freshVersion))
  }

  /** `publish` of new bytes or of a new parser on document `id` with history `vs`. */
  function PublishNext(st: Store, q: Request, id: string, vs: seq<Version>): (r: (Store, Outcome)) {
    var canonicalization := CanonicalizationFlag(vs, q.hash, q.archiveId, q.parserId);
    if CannotSupersede(vs, canonicalization, q.now) then (st, Failed(InvalidVersion))
    else
      var existing := SupersedeAll(vs, canonicalization, q.now);
      var from := FromOf(q, canonicalization);
      match PersistError(q, existing, id, MaxNumber(vs) + 1, from)
      case Some(f) => (st, Failed(f))
      case None => (Persisted(st, q, id, existing, MaxNumber(vs) + 1, from), Published(id, q.freshVersion))
  }

  /** One `publish` call; a failed unit of work leaves the store as it was. */
  function Publish(st: Store, q: Request): (r: (Store, Outcome)) {
    if q.url !in st.documents then PublishNew(st, q)
    else
      var id := st.documents[q.url].id;
      var vs := History(st, id);
      match FindSame(vs, q.hash, q.parserId)
      case Some(same) => (st, Unchanged(id, same.id))
      case None => PublishNext(st, q, id, vs)
  }

  /** A review of an unknown page leaves a placeholder document without versions. */
  function Review(st: Store, url: string, title: string, freshDocument: string): (r: Store) {
    if url in st.documents then st
    else st.(documents := st.documents[url := Document(freshDocument, url, title, false)])
  }

  // ----- Runs -----

  datatype Action = DoPublish(request: Request) | DoReview(url: string, title: string, freshDocument: string)

  function Apply(st: Store, a: Action): (r: Store) {
    match a
    case DoPublish(q) => Publish(st, q).0
    case DoReview(url, title, freshDocument) => Review(st, url, title, freshDocument)
  }

  ghost predicate UnusedDocumentId(st: Store, id: string) {
    id !in st.versions && forall u :: u in st.documents ==> st.documents[u].id != id
  }

  /** Ids that the id generator hands out are not in use. */
  ghost predicate FreshIds(st: Store, a: Action) {
    match a
    case DoPublish(q) => UnusedDocumentId(st, q.freshDocument) && q.freshVersion !in st.nodes
    case DoReview(_, _, freshDocument) => UnusedDocumentId(st, freshDocument)
  }

  function RunAll(actions: seq<Action>): (r: Store)
    decreases |actions|
  {
    if actions == [] then EMPTY_STORE else Apply(RunAll(actions[..|actions| - 1]), actions[|actions| - 1])
  }

  /** Every action finds its generated ids unused. */
  ghost predicate FreshRun(actions: seq<Action>)
    decreases |actions|
  {
    actions != [] ==>
      FreshRun(actions[..|actions| - 1]) && FreshIds(RunAll(actions[..|actions| - 1]), actions[|actions| - 1])
  }
}
