/**
 Consequences for callers: when a publish fails, what it leaves alone, what it does to
 as-of answers, and that the stored tree reads back as it was published.
 */
module IngestTheorems {
  import opened Prelude
  import opened LegalNodes
  import opened Hierarchy
  import opened HierarchyCheck
  import opened Versions
  import opened IngestModel
  import opened IngestInvariants

  // ----- When a publish fails -----

  /** The version to be superseded by a source update starts after the clock reading. */
  predicate StartsInFuture(vs: seq<Version>, now: int) {
    vs != [] && vs[|vs| - 1].from.Some? && vs[|vs| - 1].from.value != 0 && now != 0 &&
    vs[|vs| - 1].from.value > now
  }

  lemma CannotSupersedeMeaning(documentId: string, vs: seq<Version>, flag: bool, now: int)
    requires WellKept(documentId, vs)
    ensures CannotSupersede(vs, flag, now) <==> !flag && StartsInFuture(vs, now)
  {
    if vs != [] {
      var last := vs[|vs| - 1];
      assert last.status == PUBLISHED && ValidRow(last);
      assert !ValidRow(Supersede(last, flag, now)) <==> !flag && StartsInFuture(vs, now);
    }
  }

  lemma NoClash(existing: seq<Version>, next: Version)
    requires forall i :: 0 <= i < |existing| ==> existing[i].status != PUBLISHED
    ensures forall i, j :: 0 <= i < j <= |existing| ==> !Clash((existing + [next])[i], (existing + [next])[j])
  {
  }

  lemma PersistNeverOverlaps(q: Request, existing: seq<Version>, id: string, number: int, from: Stamp)
    requires forall i :: 0 <= i < |existing| ==> existing[i].status != PUBLISHED
    ensures PersistError(q, existing, id, number, from) != Some(Overlap)
  {
    NoClash(existing, NewVersion(q, id, number, from));
  }

  /** The overlap error of `persistWith` is never reached from a reachable store. */
  lemma OverlapUnreachable(st: Store, q: Request)
    requires Inv(st)
    ensures Publish(st, q).1 != Failed(Overlap)
  {
    if q.url in st.documents {
      var id := st.documents[q.url].id;
      var vs := History(st, id);
      var flag := CanonicalizationFlag(vs, q.hash, q.archiveId, q.parserId);
      HistoryOk(st, id);
      PersistNeverOverlaps(q, SupersedeAll(vs, flag, q.now), id, MaxNumber(vs) + 1, FromOf(q, flag));
    } else {
      PersistNeverOverlaps(q, [], q.freshDocument, 1, q.from);
    }
  }

  /** What the caller can check beforehand about the version row and the tree. */
  ghost predicate Publishable(q: Request, flag: bool) {
    FromOf(q, flag) != Malformed && !Blank(q.hash) && !Blank(q.parserId) && !Blank(q.archiveId) && Accepted(q.tree)
  }

  lemma PersistErrorMeaning(q: Request, existing: seq<Version>, id: string, number: int, flag: bool)
    requires number >= 1 && forall i :: 0 <= i < |existing| ==> existing[i].status != PUBLISHED
    ensures PersistError(q, existing, id, number, FromOf(q, flag)).None? <==> Publishable(q, flag)
  {
    AcceptedMeaning(q.tree);
    NoClash(existing, NewVersion(q, id, number, FromOf(q, flag)));
  }

  /**
   On a known document a publish of new bytes or of a new parser goes through exactly when
   the row and the tree are publishable and, for a source update, the current version does
   not start in the future.
   */
  lemma KnownDocumentPublishes(st: Store, q: Request)
    requires Inv(st) && q.url in st.documents
    ensures var id := st.documents[q.url].id;
            var vs := History(st, id);
            var flag := CanonicalizationFlag(vs, q.hash, q.archiveId, q.parserId);
            (Publish(st, q).1.Unchanged? <==> exists v :: v in vs && v.hash == q.hash && v.parserId == q.parserId) &&
            (!Publish(st, q).1.Unchanged? ==>
              (Publish(st, q).1.Published? <==> Publishable(q, flag) && (flag || !StartsInFuture(vs, q.now))))
  {
    var id := st.documents[q.url].id;
    var vs := History(st, id);
    var flag := CanonicalizationFlag(vs, q.hash, q.archiveId, q.parserId);
    HistoryOk(st, id);
    CannotSupersedeMeaning(id, vs, flag, q.now);
    PersistErrorMeaning(q, SupersedeAll(vs, flag, q.now), id, MaxNumber(vs) + 1, flag);
  }

  lemma NewDocumentPublishes(st: Store, q: Request)
    requires q.url !in st.documents
    ensures Publish(st, q).1.Published? <==> Publishable(q, false)
    ensures !Publish(st, q).1.Unchanged?
  {
    PersistErrorMeaning(q, [], q.freshDocument, 1, false);
  }

  // ----- Unchanged -----

  /**
   An "unchanged" answer names the stored version with these bytes and this parser. It is
   the current version only if nothing else was published since: with bytes A, B, A it is not.
   */
  lemma UnchangedNames(st: Store, q: Request)
    requires Inv(st) && q.url in st.documents && Publish(st, q).1.Unchanged?
    ensures Publish(st, q).0 == st
    ensures var vs := History(st, st.documents[q.url].id);
            exists i :: 0 <= i < |vs| && vs[i].id == Publish(st, q).1.versionId &&
              vs[i].hash == q.hash && vs[i].parserId == q.parserId && (vs[i].status == PUBLISHED <==> i == |vs| - 1)
  {
    var id := st.documents[q.url].id;
    var vs := History(st, id);
    HistoryOk(st, id);
    var same := FindSame(vs, q.hash, q.parserId).value;
    var i :| 0 <= i < |vs| && vs[i] == same;
    assert vs[i].status == PUBLISHED <==> i == |vs| - 1;
  }

  lemma {:induction false} FindSameUnique(vs: seq<Version>, hash: string, parserId: string, i: nat)
    requires i < |vs| && vs[i].hash == hash && vs[i].parserId == parserId
    requires forall a, b :: 0 <= a < b < |vs| ==> vs[a].hash != vs[b].hash || vs[a].parserId != vs[b].parserId
    ensures FindSame(vs, hash, parserId) == Some(vs[i])
    decreases |vs|
  {
    if i > 0 {
      assert vs[0].hash != vs[i].hash || vs[0].parserId != vs[i].parserId;
      FindSameUnique(vs[1..], hash, parserId, i - 1);
    }
  }

  /** Publishing the same page again, at any later time, changes nothing and names the same version. */
  lemma PublishIsIdempotent(st: Store, q: Request, again: Request)
    requires Inv(st) && FreshIds(st, DoPublish(q)) && Publish(st, q).1.Published?
    requires again.url == q.url && again.hash == q.hash && again.parserId == q.parserId
    ensures var after := Publish(st, q).0;
            Publish(after, again) == (after, Unchanged(Publish(st, q).1.documentId, Publish(st, q).1.versionId))
  {
    var existing, number, from := PublishWrites(st, q);
    PublishKeepsInv(st, q);
    var id := Target(st, q);
    var after := Persisted(st, q, id, existing, number, from);
    HistoryOk(after, id);
    SameIsFound(after, again, id, existing, NewVersion(q, id, number, from));
  }

  /** The last version of a document with these bytes and this parser makes a publish answer "unchanged". */
  lemma SameIsFound(st: Store, q: Request, id: string, earlier: seq<Version>, last: Version)
    requires q.url in st.documents && st.documents[q.url].id == id && History(st, id) == earlier + [last]
    requires WellKept(id, History(st, id)) && last.hash == q.hash && last.parserId == q.parserId
    ensures Publish(st, q) == (st, Unchanged(id, last.id))
  {
    FindSameUnique(earlier + [last], q.hash, q.parserId, |earlier|);
  }

  // ----- What stays the same -----

  /** Everything about a version row but its status and its upper bound. */
  predicate SameButClosed(a: Version, b: Version) {
    b == a.(status := b.status, to := b.to) && (a.to.Some? ==> b.to == a.to)
  }

  ghost predicate HistoryPreserved(before: seq<Version>, after: seq<Version>) {
    |before| <= |after| && (forall i :: 0 <= i < |before| ==> SameButClosed(before[i], after[i]))
  }

  ghost predicate StorePreserved(a: Store, b: Store) {
    (forall v :: v in a.nodes ==> v in b.nodes && b.nodes[v] == a.nodes[v]) &&
    (forall v :: v in a.nodes && v in a.citations ==> v in b.citations && b.citations[v] == a.citations[v]) &&
    (forall d :: HistoryPreserved(History(a, d), History(b, d)))
  }

  lemma PersistedPreserves(st: Store, q: Request, id: string, existing: seq<Version>, number: int, from: Stamp)
    requires q.freshVersion !in st.nodes
    requires HistoryPreserved(History(st, id), existing + [NewVersion(q, id, number, from)])
    ensures var after := Persisted(st, q, id, existing, number, from);
            StorePreserved(st, after) && forall d :: d != id ==> History(after, d) == History(st, d)
  {
    var after := Persisted(st, q, id, existing, number, from);
    forall d
      ensures HistoryPreserved(History(st, d), History(after, d))
    {
      if d != id {
        assert History(after, d) == History(st, d);
      }
    }
  }

  lemma SupersedePreserves(vs: seq<Version>, flag: bool, now: int, next: Version)
    ensures HistoryPreserved(vs, SupersedeAll(vs, flag, now) + [next])
  {
  }

  /** The document a publish writes to. */
  function Target(st: Store, q: Request): (r: string) {
    if q.url in st.documents then st.documents[q.url].id else q.freshDocument
  }

  /** What a successful publish writes: the closed history and a new row. */
  lemma PublishWrites(st: Store, q: Request) returns (existing: seq<Version>, number: int, from: Stamp)
    requires Inv(st) && FreshIds(st, DoPublish(q)) && Publish(st, q).1.Published?
    ensures Publish(st, q) ==
            (Persisted(st, q, Target(st, q), existing, number, from), Published(Target(st, q), q.freshVersion))
    ensures HistoryPreserved(History(st, Target(st, q)), existing + [NewVersion(q, Target(st, q), number, from)])
  {
    if q.url in st.documents {
      var id := st.documents[q.url].id;
      var vs := History(st, id);
      var flag := CanonicalizationFlag(vs, q.hash, q.archiveId, q.parserId);
      existing, number, from := SupersedeAll(vs, flag, q.now), MaxNumber(vs) + 1, FromOf(q, flag);
      SupersedePreserves(vs, flag, q.now, NewVersion(q, id, number, from));
    } else {
      existing, number, from := [], 1, q.from;
    }
  }

  lemma NotPublishedKeepsStore(st: Store, q: Request)
    requires !Publish(st, q).1.Published?
    ensures Publish(st, q).0 == st
  {
  }

  /**
   A publish never touches stored node rows or citations, and changes an older version row
   at most in status and upper bound, and only in the published document.
   */
  lemma PublishPreserves(st: Store, q: Request)
    requires Inv(st) && FreshIds(st, DoPublish(q))
    ensures StorePreserved(st, Publish(st, q).0)
    ensures forall d :: d != Target(st, q) ==> History(Publish(st, q).0, d) == History(st, d)
  {
    if Publish(st, q).1.Published? {
      var existing, number, from := PublishWrites(st, q);
      PersistedPreserves(st, q, Target(st, q), existing, number, from);
    } else {
      NotPublishedKeepsStore(st, q);
      PreservedRefl(st);
    }
  }

  lemma PreservedTrans(a: Store, b: Store, c: Store)
    requires StorePreserved(a, b) && StorePreserved(b, c)
    ensures StorePreserved(a, c)
  {
    forall d
      ensures HistoryPreserved(History(a, d), History(c, d))
    {
      var x, y, z := History(a, d), History(b, d), History(c, d);
      assert HistoryPreserved(x, y) && HistoryPreserved(y, z);
      forall i | 0 <= i < |x|
        ensures SameButClosed(x[i], z[i])
      {
        assert SameButClosed(x[i], y[i]) && SameButClosed(y[i], z[i]);
      }
    }
  }

  lemma ApplyPreserves(st: Store, a: Action)
    requires Inv(st) && FreshIds(st, a)
    ensures StorePreserved(st, Apply(st, a))
  {
    match a {
      case DoPublish(q) => PublishPreserves(st, q);
      case DoReview(_, _, _) =>
        forall d
          ensures HistoryPreserved(History(st, d), History(Apply(st, a), d))
        {
        }
    }
  }

  lemma PreservedRefl(st: Store)
    ensures StorePreserved(st, st)
  {
    forall d
      ensures HistoryPreserved(History(st, d), History(st, d))
    {
    }
  }

  lemma AfterRunPreserves(before: seq<Action>, last: Action)
    requires FreshRun(before) && FreshIds(RunAll(before), last)
    ensures StorePreserved(RunAll(before), Apply(RunAll(before), last))
  {
    RunKeepsInv(before);
    ApplyPreserves(RunAll(before), last);
  }

  /** Whatever is stored at some point of a run is still stored, unaltered, at its end. */
  lemma {:induction false} RunPreserves(actions: seq<Action>, k: nat)
    requires FreshRun(actions) && k <= |actions|
    ensures StorePreserved(RunAll(actions[..k]), RunAll(actions))
    decreases |actions|
  {
    if k == |actions| {
      assert actions[..k] == actions;
      PreservedRefl(RunAll(actions));
    } else {
      var before, last := actions[..|actions| - 1], actions[|actions| - 1];
      assert before[..k] == actions[..k];
      RunPreserves(before, k);
      AfterRunPreserves(before, last);
      PreservedTrans(RunAll(actions[..k]), RunAll(before), RunAll(actions));
    }
  }

  // ----- As-of answers -----

  /**
   How answers change from history `vs` to `after`: by a source update only, only inside
   [from, now) of the version superseded, and there the answer becomes that version.
   */
  predicate AnswersChange(vs: seq<Version>, after: seq<Version>, flag: bool, now: int, instant: Stamp) {
    AsOf(after, instant) ==
    if vs != [] && !flag && instant.At? && vs[|vs| - 1].from.Some? && vs[|vs| - 1].from.value <= instant.ms < now
    then Some(Supersede(vs[|vs| - 1], false, now)) else AsOf(vs, instant)
  }

  /** The as-of answer over a superseded history and its new row. */
  lemma NextAsOf(id: string, vs: seq<Version>, flag: bool, now: int, next: Version, instant: Stamp)
    requires WellKept(id, vs) && next.status == PUBLISHED && next.to.None? && (flag ==> next.from.None?)
    ensures AnswersChange(vs, SupersedeAll(vs, flag, now) + [next], flag, now, instant)
  {
    if vs == [] {
      assert SupersedeAll(vs, flag, now) + [next] == [] + [next];
      AsOfSnoc([], next, instant);
    } else if flag {
      CanonicalizationKeepsAsOf(id, vs, now, next, instant);
    } else {
      SourceUpdateAsOf(id, vs, now, next, instant);
    }
  }

  lemma GrownAnswers(q: Request, id: string, vs: seq<Version>, flag: bool, grown: seq<Version>, instant: Stamp)
    requires WellKept(id, vs)
    requires grown == SupersedeAll(vs, flag, q.now) + [NewVersion(q, id, MaxNumber(vs) + 1, FromOf(q, flag))]
    ensures AnswersChange(vs, grown, flag, q.now, instant)
  {
    var next := NewVersion(q, id, MaxNumber(vs) + 1, FromOf(q, flag));
    NextAsOf(id, vs, flag, q.now, next, instant);
  }

  /**
   The as-of answers for the published document, whose history was `vs`, well kept as in every
   run, and is now `grown`, at any instant after a successful publish.
   */
  lemma AsOfAfterPublish(st: Store, q: Request, vs: seq<Version>, grown: seq<Version>, instant: Stamp)
    requires q.url in st.documents && Publish(st, q).1.Published? && WellKept(st.documents[q.url].id, vs)
    requires vs == History(st, st.documents[q.url].id) && grown == History(Publish(st, q).0, st.documents[q.url].id)
    ensures AnswersChange(vs, grown, CanonicalizationFlag(vs, q.hash, q.archiveId, q.parserId), q.now, instant)
  {
    var flag := CanonicalizationFlag(vs, q.hash, q.archiveId, q.parserId);
    PublishedHistory(st, q, vs, grown, flag);
    GrownAnswers(q, st.documents[q.url].id, vs, flag, grown, instant);
  }

  /** The history after a successful publish on a known document. */
  lemma PublishedHistory(st: Store, q: Request, vs: seq<Version>, grown: seq<Version>, flag: bool)
    requires q.url in st.documents && Publish(st, q).1.Published?
    requires vs == History(st, st.documents[q.url].id) && grown == History(Publish(st, q).0, st.documents[q.url].id)
    requires flag == CanonicalizationFlag(vs, q.hash, q.archiveId, q.parserId)
    ensures grown == SupersedeAll(vs, flag, q.now) +
                     [NewVersion(q, st.documents[q.url].id, MaxNumber(vs) + 1, FromOf(q, flag))]
  {
    NextShape(st, q, st.documents[q.url].id, vs, flag);
  }

  /** The flag means what its name says: some stored version is a re-parse partner. */
  lemma PublishFlagMeaning(st: Store, q: Request)
    requires q.url in st.documents && !Publish(st, q).1.Unchanged?
    ensures var vs := History(st, st.documents[q.url].id);
            CanonicalizationFlag(vs, q.hash, q.archiveId, q.parserId) <==>
            exists v :: v in vs && IsCanonicalizationUpdate(v, q.hash, q.archiveId, q.parserId)
  {
    FlagMeaning(History(st, st.documents[q.url].id), q.hash, q.archiveId, q.parserId);
  }

  // ----- What the stored row says about its request -----

  /** The row repeats the page it was published from. */
  predicate RowOf(v: Version, q: Request) {
    v.id == q.freshVersion && v.hash == q.hash && v.parserId == q.parserId && v.archiveId == q.archiveId
  }

  ghost predicate HasPartner(vs: seq<Version>, q: Request) {
    exists v :: v in vs && v.hash == q.hash && v.archiveId == q.archiveId && v.parserId != q.parserId
  }

  /** The history after a publish: every row superseded, the last one closed by a source update, and the new row. */
  ghost predicate GrownBy(vs: seq<Version>, grown: seq<Version>, d: string, q: Request) {
    |grown| == |vs| + 1 &&
    (forall i :: 0 <= i < |vs| ==>
       SameButClosed(vs[i], grown[i]) && grown[i].status == SUPERSEDED &&
       grown[i].to == if i == |vs| - 1 && !HasPartner(vs, q) then Some(q.now) else vs[i].to) &&
    var last := grown[|vs|];
    RowOf(last, q) && last.documentId == d && last.number == |grown| && last.status == PUBLISHED && last.to.None? &&
    last.from == if q.from.At? && !HasPartner(vs, q) then Some(q.from.ms) else None
  }

  /** What a successful publish stores about the document and its versions. */
  lemma PublishStores(st: Store, q: Request, d: string, next: Store)
    requires Inv(st) && FreshIds(st, DoPublish(q)) && Publish(st, q) == (next, Published(d, q.freshVersion))
    ensures q.url in next.documents && next.documents[q.url] == Document(d, q.url, q.title, true)
    ensures GrownBy(History(st, d), History(next, d), d, q)
  {
    if q.url in st.documents {
      HistoryOk(st, d);
      FlagIsPartner(st, q, History(st, d));
      KnownStores(st, q, d, next, History(st, d));
    } else {
      NewStores(st, q, d, next);
    }
  }

  lemma FlagIsPartner(st: Store, q: Request, vs: seq<Version>)
    requires q.url in st.documents && vs == History(st, st.documents[q.url].id) && !Publish(st, q).1.Unchanged?
    ensures CanonicalizationFlag(vs, q.hash, q.archiveId, q.parserId) <==> HasPartner(vs, q)
  {
    PublishFlagMeaning(st, q);
    assert forall v :: IsCanonicalizationUpdate(v, q.hash, q.archiveId, q.parserId) <==>
      v.hash == q.hash && v.archiveId == q.archiveId && v.parserId != q.parserId;
  }

  lemma KnownStores(st: Store, q: Request, d: string, next: Store, vs: seq<Version>)
    requires q.url in st.documents && d == st.documents[q.url].id && vs == History(st, d) && WellKept(d, vs)
    requires Publish(st, q) == (next, Published(d, q.freshVersion))
    requires CanonicalizationFlag(vs, q.hash, q.archiveId, q.parserId) <==> HasPartner(vs, q)
    ensures q.url in next.documents && next.documents[q.url] == Document(d, q.url, q.title, true)
    ensures GrownBy(vs, History(next, d), d, q)
  {
    var flag := CanonicalizationFlag(vs, q.hash, q.archiveId, q.parserId);
    NextShape(st, q, d, vs, flag);
    NextNumberIsNext(d, vs);
    GrownRows(vs, flag, d, q);
  }

  lemma NewStores(st: Store, q: Request, d: string, next: Store)
    requires Inv(st) && FreshIds(st, DoPublish(q)) && q.url !in st.documents
    requires Publish(st, q) == (next, Published(d, q.freshVersion))
    ensures q.url in next.documents && next.documents[q.url] == Document(d, q.url, q.title, true)
    ensures GrownBy(History(st, d), History(next, d), d, q)
  {
    assert History(st, d) == [];
    assert History(next, d) == [] + [NewVersion(q, d, 1, q.from)];
  }

  lemma GrownRows(vs: seq<Version>, flag: bool, d: string, q: Request)
    requires WellKept(d, vs) && (flag <==> HasPartner(vs, q))
    ensures GrownBy(vs, SupersedeAll(vs, flag, q.now) + [NewVersion(q, d, |vs| + 1, FromOf(q, flag))], d, q)
  {
  }

  /** The citation repeats the row, under the law and the page of the request. */
  predicate CitedFor(c: Citation, q: Request, n: FlatNode) {
    c.versionId == q.freshVersion && c.nodeId == n.id && c.locator == n.sourceLocator && c.exactText == n.text &&
    c.url == q.url && c.hash == (if n.contentHash == "" then q.hash else n.contentHash) &&
    c.key == if q.lawId.Some? && q.lawId.value != "" then q.lawId.value + ":" + n.sourceLocator else n.sourceLocator
  }

  /** The rows but the DOCUMENT ones, in order. */
  function Provisions(rows: seq<FlatNode>): (r: seq<FlatNode>)
    decreases |rows|
  {
    if rows == [] then []
    else Provisions(rows[..|rows| - 1]) + if rows[|rows| - 1].nodeType != DOCUMENT then [rows[|rows| - 1]] else []
  }

  /** Exactly the rows but the DOCUMENT ones are cited, in order. */
  ghost predicate AllCited(cites: seq<Citation>, q: Request, rows: seq<FlatNode>) {
    |cites| == |Provisions(rows)| && forall i :: 0 <= i < |cites| ==> CitedFor(cites[i], q, Provisions(rows)[i])
  }

  lemma {:induction false} CitationsAre(q: Request, rows: seq<FlatNode>)
    ensures AllCited(CitationsFor(q, q.freshVersion, rows), q, rows)
    decreases |rows|
  {
    if rows != [] {
      CitationsAre(q, rows[..|rows| - 1]);
      assert CitedFor(CitationOf(q, q.freshVersion, rows[|rows| - 1]), q, rows[|rows| - 1]);
    }
  }

  /** What a successful publish stores about the page: the rows of its tree, and their citations. */
  lemma PublishStoresPage(st: Store, q: Request)
    requires Inv(st) && FreshIds(st, DoPublish(q)) && Publish(st, q).1.Published?
    ensures var (next, rows) := (Publish(st, q).0, FlattenAll(q.tree));
            q.freshVersion in next.nodes && |next.nodes[q.freshVersion]| == |rows| &&
            (forall i :: 0 <= i < |rows| ==>
               next.nodes[q.freshVersion][i] == rows[i].(versionId := q.freshVersion)) &&
            q.freshVersion in next.citations && AllCited(next.citations[q.freshVersion], q, next.nodes[q.freshVersion])
  {
    var existing, number, from := PublishWrites(st, q);
    CitationsAre(q, Stamped(FlattenAll(q.tree), q.freshVersion));
  }

  /** Documents are marked in force exactly when they have a version. */
  ghost predicate InForceExactly(st: Store) {
    forall u :: u in st.documents ==> (st.documents[u].inForce <==> History(st, st.documents[u].id) != [])
  }

  lemma PublishInForce(st: Store, q: Request)
    requires Inv(st) && FreshIds(st, DoPublish(q)) && InForceExactly(st) && Publish(st, q).1.Published?
    ensures InForceExactly(Publish(st, q).0)
  {
    var existing, number, from := PublishWrites(st, q);
    PublishPreserves(st, q);
    var next, d := Publish(st, q).0, Target(st, q);
    assert History(next, d) == existing + [NewVersion(q, d, number, from)];
    forall u | u in next.documents
      ensures next.documents[u].inForce <==> History(next, next.documents[u].id) != []
    {
      if u != q.url {
        assert st.documents[u].id != d;
      }
    }
  }

  /** In every reachable store a document is marked in force exactly when a version of it was published. */
  lemma {:induction false} RunInForce(actions: seq<Action>)
    requires FreshRun(actions)
    ensures InForceExactly(RunAll(actions))
    decreases |actions|
  {
    if actions != [] {
      var before, last := actions[..|actions| - 1], actions[|actions| - 1];
      RunInForce(before);
      RunKeepsInv(before);
      if last.DoPublish? {
        if Publish(RunAll(before), last.request).1.Published? {
          PublishInForce(RunAll(before), last.request);
        } else {
          NotPublishedKeepsStore(RunAll(before), last.request);
        }
      }
    }
  }

  /** The action names the page and gives it this title. */
  predicate Titles(a: Action, url: string, title: string) {
    match a
    case DoPublish(q) => q.url == url && q.title == title
    case DoReview(u, t, _) => u == url && t == title
  }

  lemma ApplyTitles(st: Store, a: Action, url: string)
    requires url in Apply(st, a).documents
    ensures (url in st.documents && Apply(st, a).documents[url].title == st.documents[url].title) ||
            Titles(a, url, Apply(st, a).documents[url].title)
  {
  }

  /** In every run a document carries a title that some action gave its page. */
  lemma {:induction false} RunTitlesGiven(actions: seq<Action>, url: string)
    requires url in RunAll(actions).documents
    ensures exists k :: 0 <= k < |actions| && Titles(actions[k], url, RunAll(actions).documents[url].title)
    decreases |actions|
  {
    var before, last := actions[..|actions| - 1], actions[|actions| - 1];
    ApplyTitles(RunAll(before), last, url);
    var title := RunAll(actions).documents[url].title;
    if Titles(last, url, title) {
      assert Titles(actions[|actions| - 1], url, title);
    } else {
      RunTitlesGiven(before, url);
      var k :| 0 <= k < |before| && Titles(before[k], url, title);
      assert actions[k] == before[k];
    }
  }

  // ----- A re-parse of a page published earlier in the run -----

  /** Documents keep their ids. */
  ghost predicate DocumentsKept(a: Store, b: Store) {
    forall u :: u in a.documents ==> u in b.documents && b.documents[u].id == a.documents[u].id
  }

  lemma PublishKeepsDocuments(st: Store, q: Request)
    requires Inv(st) && FreshIds(st, DoPublish(q))
    ensures DocumentsKept(st, Publish(st, q).0)
  {
    if Publish(st, q).1.Published? {
      var existing, number, from := PublishWrites(st, q);
    } else {
      NotPublishedKeepsStore(st, q);
    }
  }

  lemma {:induction false} RunKeepsDocuments(actions: seq<Action>, k: nat)
    requires FreshRun(actions) && k <= |actions|
    ensures DocumentsKept(RunAll(actions[..k]), RunAll(actions))
    decreases |actions|
  {
    if k == |actions| {
      assert actions[..k] == actions;
    } else {
      var before, last := actions[..|actions| - 1], actions[|actions| - 1];
      assert before[..k] == actions[..k];
      RunKeepsDocuments(before, k);
      RunKeepsInv(before);
      if last.DoPublish? {
        PublishKeepsDocuments(RunAll(before), last.request);
      }
    }
  }

  lemma {:induction false} FreshPrefix(actions: seq<Action>, k: nat)
    requires FreshRun(actions) && k <= |actions|
    ensures FreshRun(actions[..k])
    decreases |actions|
  {
    if k == |actions| {
      assert actions[..k] == actions;
    } else {
      var before := actions[..|actions| - 1];
      assert before[..k] == actions[..k];
      FreshPrefix(before, k);
    }
  }

  /** A row published at some point of a run is still there at its end, but for status and upper bound. */
  lemma PublishedRowStays(actions: seq<Action>, k: nat, q: Request, d: string) returns (v: Version)
    requires FreshRun(actions) && k < |actions| && actions[k] == DoPublish(q)
    requires Publish(RunAll(actions[..k]), q).1 == Published(d, q.freshVersion)
    ensures var st := RunAll(actions);
            q.url in st.documents && st.documents[q.url].id == d && v in History(st, d) && RowOf(v, q)
  {
    var before, after := RunAll(actions[..k]), RunAll(actions[..k + 1]);
    assert actions[..k + 1][..k] == actions[..k];
    FreshPrefix(actions, k + 1);
    assert FreshRun(actions[..k + 1]);
    RunKeepsInv(actions[..k]);
    PublishStores(before, q, d, after);
    RunPreserves(actions, k + 1);
    RunKeepsDocuments(actions, k + 1);
    var x, y := History(after, d), History(RunAll(actions), d);
    assert HistoryPreserved(x, y);
    var i := |History(before, d)|;
    assert SameButClosed(x[i], y[i]);
    v := y[i];
  }

  /**
   Whatever happened since: publishing the same bytes and archive record again under a parser not
   stored before changes no as-of answer of the document.
   */
  lemma ReparseKeepsAnswers(actions: seq<Action>, k: nat, q: Request, d: string, again: Request, instant: Stamp)
    requires FreshRun(actions) && k < |actions| && actions[k] == DoPublish(q)
    requires Publish(RunAll(actions[..k]), q).1 == Published(d, q.freshVersion)
    requires again.url == q.url && again.hash == q.hash && again.archiveId == q.archiveId
    requires !Publish(RunAll(actions), again).1.Unchanged?
    ensures AsOf(History(Publish(RunAll(actions), again).0, d), instant) == AsOf(History(RunAll(actions), d), instant)
  {
    var st := RunAll(actions);
    RunKeepsInv(actions);
    var v := PublishedRowStays(actions, k, q, d);
    if Publish(st, again).1.Published? {
      HistoryOk(st, d);
      PublishFlagMeaning(st, again);
      KnownDocumentPublishes(st, again);
      assert IsCanonicalizationUpdate(v, again.hash, again.archiveId, again.parserId);
      AsOfAfterPublish(st, again, History(st, d), History(Publish(st, again).0, d), instant);
    } else {
      NotPublishedKeepsStore(st, again);
    }
  }

  // ----- Reading the tree back -----

  function Restamp(t: Tree, versionId: string): (r: Tree)
    decreases t
  {
    Tree(t.node.(versionId := versionId), RestampAll(t.children, versionId))
  }

  function RestampAll(ts: seq<Tree>, versionId: string): (r: seq<Tree>)
    ensures |r| == |ts|
    decreases ts
  {
    if ts == [] then [] else [Restamp(ts[0], versionId)] + RestampAll(ts[1..], versionId)
  }

  lemma StampedConcat(a: seq<FlatNode>, b: seq<FlatNode>, versionId: string)
    ensures Stamped(a + b, versionId) == Stamped(a, versionId) + Stamped(b, versionId)
  {
  }

  lemma {:induction false} RestampFlatten(ts: seq<Tree>, parent: Option<string>, versionId: string)
    ensures FlattenAll(RestampAll(ts, versionId)) == Stamped(FlattenAll(ts), versionId)
    ensures ParentsAgreeAll(ts, parent) <==> ParentsAgreeAll(RestampAll(ts, versionId), parent)
    decreases ts
  {
    if ts != [] {
      var below := FlattenAll(ts[0].children);
      var r := RestampAll(ts, versionId);
      assert r[0] == Restamp(ts[0], versionId) && r[1..] == RestampAll(ts[1..], versionId);
      RestampFlatten(ts[0].children, Some(ts[0].node.id), versionId);
      RestampFlatten(ts[1..], parent, versionId);
      StampedConcat([ts[0].node], below, versionId);
      StampedConcat([ts[0].node] + below, FlattenAll(ts[1..]), versionId);
      assert Stamped([ts[0].node], versionId) == [r[0].node];
    }
  }

  /** A published tree reads back from its rows with the same shape, order and contents. */
  lemma TreeReadsBack(ts: seq<Tree>, versionId: string)
    requires Accepted(ts) && NoEmptyParents(FlattenAll(ts))
    ensures AssembleForest(Stamped(FlattenAll(ts), versionId)) == RestampAll(ts, versionId)
  {
    RestampFlatten(ts, None, versionId);
    AssembleUndoesFlatten(RestampAll(ts, versionId));
  }
}
