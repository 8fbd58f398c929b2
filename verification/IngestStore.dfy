/**
 The corpus store as an object whose tables the publish steps update in place, inside a
 unit of work that is rolled back on failure.
 */
module IngestStore {
  import opened Prelude
  import opened LegalNodes
  import opened HierarchyCheck
  import opened Versions
  import opened IngestModel
  import Gate

  lemma Overwrite<K, V>(m: map<K, V>, k: K, a: V, b: V)
    ensures m[k := a][k := b] == m[k := b]
  {
  }

  class CorpusStore {
    var documents: map<string, Document>
    var versions: map<string, seq<Version>>
    var nodes: map<string, seq<FlatNode>>
    var citations: map<string, seq<Citation>>

    constructor ()
      ensures Tables() == EMPTY_STORE
    {
      documents, versions, nodes, citations := map[], map[], map[], map[];
    }

    function Tables(): (r: Store)
      reads this
    {
      Store(documents, versions, nodes, citations)
    }

    /** Saves every published row of a document as superseded; stops at the first row that is refused. */
    method SupersedePublished(documentId: string, canonicalization: bool, now: int) returns (ok: bool)
      requires documentId in versions
      modifies this`versions
      ensures ok <==> !CannotSupersede(old(versions[documentId]), canonicalization, now)
      ensures ok ==>
                versions == old(versions)[documentId := SupersedeAll(old(versions[documentId]), canonicalization, now)]
    {
      var rows := versions[documentId];
      ghost var target := SupersedeAll(rows, canonicalization, now);
      for k := 0 to |rows|
        invariant documentId in versions && |versions[documentId]| == |rows|
        invariant versions == old(versions)[documentId := versions[documentId]]
        invariant forall i :: 0 <= i < k ==> versions[documentId][i] == target[i]
        invariant forall i :: k <= i < |rows| ==> versions[documentId][i] == rows[i]
        invariant forall i :: 0 <= i < k && rows[i].status == PUBLISHED ==>
                    ValidRow(Supersede(rows[i], canonicalization, now))
      {
        if rows[k].status == PUBLISHED {
          var row := rows[k].(status := SUPERSEDED,
                              to := if canonicalization || rows[k].to.Some? then rows[k].to else Some(now));
          if !ValidRow(row) {
            return false;
          }
          versions := versions[documentId := versions[documentId][k := row]];
        }
      }
      assert versions[documentId] == target;
      return true;
    }

    /** One citation per row that is not a DOCUMENT row. */
    method PublishCitations(q: Request, versionId: string, rows: seq<FlatNode>)
      modifies this`citations
      ensures citations == old(citations)[versionId := CitationsFor(q, versionId, rows)]
    {
      citations := citations[versionId := []];
      for k := 0 to |rows|
        invariant citations == old(citations)[versionId := CitationsFor(q, versionId, rows[..k])]
      {
        assert rows[..k + 1][..k] == rows[..k];
        var saved := citations[versionId];
        if rows[k].nodeType != DOCUMENT {
          saved := saved + [CitationOf(q, versionId, rows[k])];
          citations := citations[versionId := saved];
        }
        assert saved == CitationsFor(q, versionId, rows[..k + 1]);
      }
      assert rows[..|rows|] == rows;
    }

    /** `persistWith`: all checks first, then the document, the version and the rows. */
    method PersistWith(q: Request, documentId: string, number: int, from: Stamp) returns (error: Option<Failure>)
      modifies this`documents, this`versions, this`nodes
      ensures error == PersistError(q, History(old(Tables()), documentId), documentId, number, from)
      ensures error.Some? ==> documents == old(documents) && versions == old(versions) && nodes == old(nodes)
      ensures error.None? ==>
                documents == old(documents)[q.url := Document(documentId, q.url, q.title, true)] &&
                versions == old(versions)[
                  documentId := History(old(Tables()), documentId) + [NewVersion(q, documentId, number, from)]] &&
                nodes == old(nodes)[q.freshVersion := Stamped(FlattenAll(q.tree), q.freshVersion)]
    {
      var existing := if documentId in versions then versions[documentId] else [];
      var next := NewVersion(q, documentId, number, from);
      if !ValidVersion(number, from, Unknown, q.hash, q.parserId, q.archiveId) {
        return Some(InvalidVersion);
      }
      var broken := AssertLegalNodeHierarchy(q.tree);
      if broken.Some? {
        return Some(BrokenHierarchy(broken.value));
      }
      var apart := VersionsDoNotOverlap(existing + [next]);
      if !apart {
        return Some(Overlap);
      }
      documents := documents[q.url := Document(documentId, q.url, q.title, true)];
      versions := versions[documentId := existing + [next]];
      var flat := Gate.FlattenTree(q.tree);
      nodes := nodes[q.freshVersion := Stamped(flat, q.freshVersion)];
      return None;
    }

    /** `persistWith` followed by `publishCitations`. */
    method Persist(q: Request, documentId: string, number: int, from: Stamp) returns (error: Option<Failure>)
      modifies this
      ensures error == PersistError(q, History(old(Tables()), documentId), documentId, number, from)
      ensures error.None? ==>
                Tables() == Persisted(old(Tables()), q, documentId, History(old(Tables()), documentId), number, from)
    {
      error := PersistWith(q, documentId, number, from);
      if error.None? {
        PublishCitations(q, q.freshVersion, nodes[q.freshVersion]);
      }
    }

    /** A new version of a known document, up to the point where it commits or fails. */
    method AddVersion(q: Request, id: string, rows: seq<Version>) returns (error: Option<Failure>)
      requires rows == History(Tables(), id)
      modifies this
      ensures IngestModel.PublishNext(old(Tables()), q, id, rows) ==
              if error.Some? then (old(Tables()), Failed(error.value)) else (Tables(), Published(id, q.freshVersion))
    {
      var prior := PriorSameSource(rows, q.hash, q.archiveId);
      var canonicalization := prior.Some? && prior.value.parserId != q.parserId;
      assert canonicalization == CanonicalizationFlag(rows, q.hash, q.archiveId, q.parserId);
      if id in versions {
        var ok := SupersedePublished(id, canonicalization, q.now);
        if !ok {
          return Some(InvalidVersion);
        }
      }
      assert History(Tables(), id) == SupersedeAll(rows, canonicalization, q.now);
      assert !CannotSupersede(rows, canonicalization, q.now);
      error := PersistNext(q, id, MaxNumber(rows) + 1, canonicalization, old(Tables()));
    }

    /** The closed history is in place; persist the next version. */
    method PersistNext(q: Request, id: string, number: int, canonicalization: bool, ghost before: Store)
      returns (error: Option<Failure>)
      requires before.documents == documents && before.nodes == nodes && before.citations == citations
      requires before.versions[id := History(Tables(), id)] == versions[id := History(Tables(), id)]
      modifies this
      ensures var existing := History(old(Tables()), id);
              error == PersistError(q, existing, id, number, FromOf(q, canonicalization)) &&
              (error.None? ==> Tables() == Persisted(before, q, id, existing, number, FromOf(q, canonicalization)))
    {
      ghost var existing := History(Tables(), id);
      var from := if canonicalization then Unknown else q.from;
      error := Persist(q, id, number, from);
      ghost var all := existing + [NewVersion(q, id, number, from)];
      Overwrite(before.versions, id, existing, all);
      Overwrite(old(versions), id, existing, all);
    }

    /** The unit of work: a failure restores the tables. */
    method Publish(q: Request) returns (outcome: Outcome)
      requires q.freshDocument !in versions
      modifies this
      ensures (Tables(), outcome) == IngestModel.Publish(old(Tables()), q)
    {
      var savedDocuments, savedVersions, savedNodes, savedCitations := documents, versions, nodes, citations;
      var error;
      if q.url in documents {
        var id := documents[q.url].id;
        var rows := if id in versions then versions[id] else [];
        var same := FindSame(rows, q.hash, q.parserId);
        if same.Some? {
          return Unchanged(id, same.value.id);
        }
        error := AddVersion(q, id, rows);
        outcome := Published(id, q.freshVersion);
      } else {
        error := Persist(q, q.freshDocument, 1, q.from);
        outcome := Published(q.freshDocument, q.freshVersion);
      }
      if error.Some? {
        documents, versions, nodes, citations := savedDocuments, savedVersions, savedNodes, savedCitations;
        outcome := Failed(error.value);
      }
    }
  }
}
