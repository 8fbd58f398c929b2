/**
 Citation rows: the audit of stored citations, the published lookup, and verification of a
 citation candidate against it.
 */
module Citations {
  import opened Prelude
  import opened LegalNodes
  import opened Hierarchy
  import opened Versions
  import opened LocatorGrammar
  import opened CitationQuery
  import opened IngestModel
  import opened IngestInvariants

  // ----- The audit -----

  datatype AuditReason =
    | MissingNode | LocatorMismatch | VersionMismatch | EmptySourceText | EmptyCitationText | MissingContentHash

  predicate ExpectsLegalText(t: NodeType) {
    t in {ARTICLE, PARAGRAPH, CLAUSE, SUB_CLAUSE}
  }

  /** The reason, if its test came out true. */
  function If(failed: bool, r: AuditReason): (l: seq<AuditReason>) {
    if failed then [r] else []
  }

  /** The reasons whose tests came out true, in the order of the tests. */
  function Listed(locator: bool, version: bool, source: bool, text: bool, hash: bool): (r: seq<AuditReason>) {
    If(locator, LocatorMismatch) + If(version, VersionMismatch) + If(source, EmptySourceText) +
    If(text, EmptyCitationText) + If(hash, MissingContentHash)
  }

  lemma OneMore(l: seq<AuditReason>, failed: bool, r: AuditReason)
    requires NoRepeats(l) && r !in l
    ensures NoRepeats(l + If(failed, r)) && (l + If(failed, r) == [] <==> l == [] && !failed)
    ensures forall x :: x in l + If(failed, r) <==> x in l || (failed && x == r)
  {
  }

  lemma ListedMembers(locator: bool, version: bool, source: bool, text: bool, hash: bool)
    ensures var l := Listed(locator, version, source, text, hash);
            (LocatorMismatch in l <==> locator) && (VersionMismatch in l <==> version) &&
            (EmptySourceText in l <==> source) && (EmptyCitationText in l <==> text) &&
            (MissingContentHash in l <==> hash) && MissingNode !in l && NoRepeats(l) &&
            (l == [] <==> !locator && !version && !source && !text && !hash)
  {
    var l1 := If(locator, LocatorMismatch);
    OneMore(l1, version, VersionMismatch);
    var l2 := l1 + If(version, VersionMismatch);
    OneMore(l2, source, EmptySourceText);
    var l3 := l2 + If(source, EmptySourceText);
    OneMore(l3, text, EmptyCitationText);
    OneMore(l3 + If(text, EmptyCitationText), hash, MissingContentHash);
  }

  /** The failures recorded for one citation. */
  function AuditOne(rows: seq<FlatNode>, c: Citation): (r: seq<AuditReason>) {
    match Lookup(rows, c.nodeId)
    case None => [MissingNode]
    case Some(n) =>
      Listed(n.sourceLocator != c.locator, n.versionId != c.versionId, ExpectsLegalText(n.nodeType) && Blank(n.text),
             Blank(c.exactText), Blank(c.hash) || Blank(n.contentHash))
  }

  /** In which ways a citation fails against the row it cites. */
  predicate FailsAt(n: FlatNode, c: Citation, r: AuditReason) {
    match r
    case LocatorMismatch => n.sourceLocator != c.locator
    case VersionMismatch => n.versionId != c.versionId
    case EmptySourceText => n.nodeType in {ARTICLE, PARAGRAPH, CLAUSE, SUB_CLAUSE} && Trim(n.text) == ""
    case EmptyCitationText => Trim(c.exactText) == ""
    case MissingContentHash => Trim(c.hash) == "" || Trim(n.contentHash) == ""
    case MissingNode => false
  }

  /** The audit of a citation records exactly the ways in which it fails against its row, each once. */
  lemma AuditMeaning(rows: seq<FlatNode>, c: Citation, n: FlatNode, r: AuditReason)
    requires UniqueIds(rows) && n in rows && n.id == c.nodeId
    ensures r in AuditOne(rows, c) <==> FailsAt(n, c, r)
    ensures NoRepeats(AuditOne(rows, c))
  {
    LookupUnique(rows, n);
    ListedMembers(n.sourceLocator != c.locator, n.versionId != c.versionId,
                  ExpectsLegalText(n.nodeType) && Blank(n.text), Blank(c.exactText),
                  Blank(c.hash) || Blank(n.contentHash));
  }

  /** Without such a row it records that, and nothing else. */
  lemma AuditMissing(rows: seq<FlatNode>, c: Citation)
    requires forall n :: n in rows ==> n.id != c.nodeId
    ensures AuditOne(rows, c) == [MissingNode]
  {
  }

  /** A citation record with the id of its row. */
  datatype Record = Record(id: string, citation: Citation)
  datatype Failure = Failure(citationId: string, reason: AuditReason, locator: string)

  function FailuresOf(rows: seq<FlatNode>, c: Record): (r: seq<Failure>) {
    var found := AuditOne(rows, c.citation);
    seq(|found|, i requires 0 <= i < |found| => Failure(c.id, found[i], c.citation.locator))
  }

  function AuditAll(rows: seq<FlatNode>, cites: seq<Record>): (r: seq<Failure>)
    decreases |cites|
  {
    if cites == [] then []
    else AuditAll(rows, cites[..|cites| - 1]) + FailuresOf(rows, cites[|cites| - 1])
  }

  predicate Clean(rows: seq<FlatNode>, c: Record) {
    AuditOne(rows, c.citation) == []
  }

  /** How many citations have no failure. */
  function CleanCount(rows: seq<FlatNode>, cites: seq<Record>): (r: nat)
    decreases |cites|
  {
    if cites == [] then 0
    else CleanCount(rows, cites[..|cites| - 1]) + if Clean(rows, cites[|cites| - 1]) then 1 else 0
  }

  function FailingIds(failures: seq<Failure>): (r: set<string>) {
    set f | f in failures :: f.citationId
  }

  /** The checks of one turn of the loop, recorded in order. */
  method AuditCitation(rows: seq<FlatNode>, c: Citation) returns (found: seq<AuditReason>)
    ensures found == AuditOne(rows, c)
  {
    var node := Lookup(rows, c.nodeId);
    if node.None? {
      return [MissingNode];
    }
    var n := node.value;
    found := [];
    if n.sourceLocator != c.locator {
      found := found + [LocatorMismatch];
    }
    assert found == If(n.sourceLocator != c.locator, LocatorMismatch);
    ghost var before := found;
    if n.versionId != c.versionId {
      found := found + [VersionMismatch];
    }
    assert found == before + If(n.versionId != c.versionId, VersionMismatch);
    before := found;
    if ExpectsLegalText(n.nodeType) && Blank(n.text) {
      found := found + [EmptySourceText];
    }
    assert found == before + If(ExpectsLegalText(n.nodeType) && Blank(n.text), EmptySourceText);
    before := found;
    if Blank(c.exactText) {
      found := found + [EmptyCitationText];
    }
    assert found == before + If(Blank(c.exactText), EmptyCitationText);
    if Blank(c.hash) || Blank(n.contentHash) {
      found := found + [MissingContentHash];
    }
  }

  /** `evaluateCitationRoundTrip`: the failures, and the number of citations less that of distinct failing ids. */
  method EvaluateCitationRoundTrip(rows: seq<FlatNode>, cites: seq<Record>) returns (failures: seq<Failure>, ok: int)
    ensures failures == AuditAll(rows, cites)
    ensures CleanCount(rows, cites) <= ok <= |cites|
    ensures NoRepeats(RecordIds(cites)) ==> ok == CleanCount(rows, cites)
    ensures ok == |cites| <==> forall c :: c in cites ==> Clean(rows, c)
  {
    failures := [];
    for k := 0 to |cites|
      invariant failures == AuditAll(rows, cites[..k])
    {
      assert cites[..k + 1][..k] == cites[..k];
      var c := cites[k];
      var found := AuditCitation(rows, c.citation);
      failures := failures + seq(|found|, i requires 0 <= i < |found| => Failure(c.id, found[i], c.citation.locator));
    }
    assert cites[..|cites|] == cites;
    ok := |cites| - |FailingIds(failures)|;
    FailingCount(rows, cites);
    NoFailingIds(rows, cites);
  }

  lemma NoFailingIds(rows: seq<FlatNode>, cites: seq<Record>)
    ensures |FailingIds(AuditAll(rows, cites))| == 0 <==> forall c :: c in cites ==> Clean(rows, c)
  {
    var ids := FailingIds(AuditAll(rows, cites));
    FailingMembers(rows, cites);
    assert |ids| == 0 <==> ids == {};
    if c :| c in cites && !Clean(rows, c) {
      assert c.id in ids;
    }
  }

  function RecordIds(cites: seq<Record>): (r: seq<string>) {
    seq(|cites|, i requires 0 <= i < |cites| => cites[i].id)
  }

  /** An id fails exactly when some citation with it has a failure. */
  lemma {:induction false} FailingMembers(rows: seq<FlatNode>, cites: seq<Record>)
    ensures forall id :: id in FailingIds(AuditAll(rows, cites)) <==>
              exists c :: c in cites && c.id == id && !Clean(rows, c)
    decreases |cites|
  {
    if cites != [] {
      var before, last := cites[..|cites| - 1], cites[|cites| - 1];
      assert cites == before + [last];
      FailingMembers(rows, before);
      FailingSnoc(rows, cites);
      forall id
        ensures id in FailingIds(AuditAll(rows, cites)) <==> exists c :: c in cites && c.id == id && !Clean(rows, c)
      {
        if id in FailingIds(AuditAll(rows, before)) {
          var c :| c in before && c.id == id && !Clean(rows, c);
          assert c in cites;
        }
      }
    }
  }

  lemma FailingSnoc(rows: seq<FlatNode>, cites: seq<Record>)
    requires cites != []
    ensures var last := cites[|cites| - 1];
            FailingIds(AuditAll(rows, cites)) ==
            FailingIds(AuditAll(rows, cites[..|cites| - 1])) + if Clean(rows, last) then {} else {last.id}
  {
    var last := cites[|cites| - 1];
    var before, own := AuditAll(rows, cites[..|cites| - 1]), FailuresOf(rows, last);
    assert FailingIds(before + own) == FailingIds(before) + FailingIds(own);
    if !Clean(rows, last) {
      assert own[0] in own;
      assert FailingIds(own) == {last.id};
    } else {
      assert FailingIds(own) == {};
    }
  }

  /** Distinct failing ids are as many as failing citations when ids are unique, and never more. */
  lemma {:induction false} FailingCount(rows: seq<FlatNode>, cites: seq<Record>)
    ensures |FailingIds(AuditAll(rows, cites))| + CleanCount(rows, cites) <= |cites|
    ensures NoRepeats(RecordIds(cites)) ==> |FailingIds(AuditAll(rows, cites))| + CleanCount(rows, cites) == |cites|
    decreases |cites|
  {
    if cites == [] {
      assert FailingIds(AuditAll(rows, cites)) == {};
    } else {
      var before, last := cites[..|cites| - 1], cites[|cites| - 1];
      FailingCount(rows, before);
      FailingSnoc(rows, cites);
      if NoRepeats(RecordIds(cites)) {
        LastIdIsNew(rows, cites);
      }
    }
  }

  lemma LastIdIsNew(rows: seq<FlatNode>, cites: seq<Record>)
    requires cites != [] && NoRepeats(RecordIds(cites))
    ensures var before := cites[..|cites| - 1];
            NoRepeats(RecordIds(before)) && cites[|cites| - 1].id !in FailingIds(AuditAll(rows, before))
  {
    var before := cites[..|cites| - 1];
    assert RecordIds(before) == RecordIds(cites)[..|cites| - 1];
    FailingMembers(rows, before);
    forall c | c in before
      ensures c.id != cites[|cites| - 1].id
    {
      var i :| 0 <= i < |before| && before[i] == c;
      assert RecordIds(cites)[i] == c.id && RecordIds(cites)[|cites| - 1] == cites[|cites| - 1].id;
    }
  }

  /** The row of a stored citation is the one it repeats. */
  lemma StoredCitationRow(versionId: string, rows: seq<FlatNode>, cites: seq<Citation>, c: Citation, n: FlatNode)
    requires StoredRows(versionId, rows) && StoredCitations(rows, cites) && c in cites && n in rows && n.id == c.nodeId
    ensures Cites(c, n) && !Blank(n.contentHash)
  {
    assert CitesSomeRow(c, rows);
    var m :| m in rows && m.nodeType != DOCUMENT && Cites(c, m);
    LookupUnique(rows, m);
    LookupUnique(rows, n);
  }

  /** A citation that repeats its row has a failure exactly when the row has no text. */
  lemma AuditOfRepeat(rows: seq<FlatNode>, c: Citation, n: FlatNode)
    requires Lookup(rows, c.nodeId) == Some(n) && n.sourceLocator == c.locator && n.versionId == c.versionId
    requires c.exactText == n.text && c.hash == n.contentHash && !Blank(n.contentHash)
    ensures forall r :: r in AuditOne(rows, c) ==> r in {EmptySourceText, EmptyCitationText}
    ensures AuditOne(rows, c) == [] <==> !Blank(n.text)
  {
    var blank := Blank(n.text);
    ListedMembers(false, false, ExpectsLegalText(n.nodeType) && blank, blank, false);
  }

  /** A citation of a stored version has a failure exactly when its row has no text. */
  lemma StoredCitationAudit(versionId: string, rows: seq<FlatNode>, cites: seq<Citation>, c: Citation, n: FlatNode)
    requires StoredRows(versionId, rows) && StoredCitations(rows, cites) && c in cites && n in rows && n.id == c.nodeId
    ensures forall r :: r in AuditOne(rows, c) ==> r in {EmptySourceText, EmptyCitationText}
    ensures AuditOne(rows, c) == [] <==> !Blank(n.text)
  {
    StoredCitationRow(versionId, rows, cites, c, n);
    LookupUnique(rows, n);
    AuditOfRepeat(rows, c, n);
  }

  ghost predicate RecordsOf(cites: seq<Citation>, records: seq<Record>) {
    forall c :: c in records ==> c.citation in cites
  }

  /**
   Auditing the citations of a stored version reports nothing about nodes, locators,
   versions or hashes: a citation fails exactly when its row has no text.
   */
  lemma {:induction false} StoredCitationsAudit(versionId: string, rows: seq<FlatNode>, cites: seq<Citation>,
                                                records: seq<Record>)
    requires StoredRows(versionId, rows) && StoredCitations(rows, cites) && RecordsOf(cites, records)
    ensures forall f :: f in AuditAll(rows, records) ==> f.reason in {EmptySourceText, EmptyCitationText}
    ensures forall id :: id in FailingIds(AuditAll(rows, records)) <==>
              exists c, n :: c in records && n in rows && c.id == id && c.citation.nodeId == n.id && Blank(n.text)
  {
    FailingMembers(rows, records);
    StoredReasons(versionId, rows, cites, records);
    forall c | c in records
      ensures exists n :: n in rows && c.citation.nodeId == n.id
    {
      assert CitesSomeRow(c.citation, rows);
    }
    forall c, n | c in records && n in rows && c.citation.nodeId == n.id
      ensures Clean(rows, c) <==> !Blank(n.text)
    {
      StoredCitationAudit(versionId, rows, cites, c.citation, n);
    }
  }

  /** Each failure names its citation, the citation's locator, and a way in which it fails. */
  ghost predicate FailureOf(rows: seq<FlatNode>, cites: seq<Record>, f: Failure) {
    exists c :: c in cites && f.citationId == c.id && f.locator == c.citation.locator &&
      f.reason in AuditOne(rows, c.citation)
  }

  lemma {:induction false} FailuresNamed(rows: seq<FlatNode>, cites: seq<Record>)
    ensures forall f :: f in AuditAll(rows, cites) ==> FailureOf(rows, cites, f)
    decreases |cites|
  {
    if cites != [] {
      var before, last := cites[..|cites| - 1], cites[|cites| - 1];
      assert cites == before + [last];
      FailuresNamed(rows, before);
      forall f | f in AuditAll(rows, cites)
        ensures FailureOf(rows, cites, f)
      {
        if f in AuditAll(rows, before) {
          var c :| c in before && f.citationId == c.id && f.locator == c.citation.locator &&
            f.reason in AuditOne(rows, c.citation);
          assert c in cites;
        } else {
          assert f in FailuresOf(rows, last);
          assert last in cites;
        }
      }
    }
  }

  /** Every way in which a citation fails is recorded under its id. */
  lemma {:induction false} FailuresComplete(rows: seq<FlatNode>, cites: seq<Record>, c: Record, r: AuditReason)
    requires c in cites && r in AuditOne(rows, c.citation)
    ensures Failure(c.id, r, c.citation.locator) in AuditAll(rows, cites)
    decreases |cites|
  {
    var before, last := cites[..|cites| - 1], cites[|cites| - 1];
    assert cites == before + [last];
    if c == last {
      var found := AuditOne(rows, c.citation);
      var i :| 0 <= i < |found| && found[i] == r;
      assert FailuresOf(rows, last)[i] == Failure(c.id, r, c.citation.locator);
    } else {
      FailuresComplete(rows, before, c, r);
    }
  }

  lemma StoredReasons(versionId: string, rows: seq<FlatNode>, cites: seq<Citation>, records: seq<Record>)
    requires StoredRows(versionId, rows) && StoredCitations(rows, cites) && RecordsOf(cites, records)
    ensures forall f :: f in AuditAll(rows, records) ==> f.reason in {EmptySourceText, EmptyCitationText}
  {
    FailuresNamed(rows, records);
    forall f | f in AuditAll(rows, records)
      ensures f.reason in {EmptySourceText, EmptyCitationText}
    {
      var c :| c in records && f.citationId == c.id && f.locator == c.citation.locator &&
        f.reason in AuditOne(rows, c.citation);
      StoredReason(versionId, rows, cites, c.citation, f.reason);
    }
  }

  lemma StoredReason(versionId: string, rows: seq<FlatNode>, cites: seq<Citation>, c: Citation, r: AuditReason)
    requires StoredRows(versionId, rows) && StoredCitations(rows, cites) && c in cites && r in AuditOne(rows, c)
    ensures r in {EmptySourceText, EmptyCitationText}
  {
    assert CitesSomeRow(c, rows);
    var n :| n in rows && n.nodeType != DOCUMENT && Cites(c, n);
    StoredCitationAudit(versionId, rows, cites, c, n);
  }

  // ----- Published lookup -----

  /** A citation joined with its node, its version and the title of its document. */
  datatype Row = Row(citation: Citation, node: FlatNode, version: Version, title: string)

  /** A lookup; `asOf` is present when the request carried a non-empty instant. */
  datatype LookupQuery = LookupQuery(
    query: string, nodeId: Option<string>, documentId: Option<string>, locator: Option<string>,
    citationKey: Option<string>, titleHint: Option<string>, article: Option<string>, paragraph: Option<string>,
    asOf: Option<Stamp>)

  /** Case-insensitive `contains` of the database, supplied from outside. */
  type TitleTest = (string, string) -> bool

  predicate NumberHit(q: LookupQuery, n: FlatNode) {
    if Truthy(q.article) && Truthy(q.paragraph) then
      n.article == q.article && n.paragraph == q.paragraph && n.nodeType == PARAGRAPH
    else Truthy(q.article) && n.article == q.article && n.nodeType == ARTICLE
  }

  predicate Hit(q: LookupQuery, r: Row) {
    r.citation.key == q.query || r.citation.locator == q.query ||
    (Truthy(q.nodeId) && r.citation.nodeId == q.nodeId.value) ||
    (Truthy(q.locator) && r.citation.locator == q.locator.value) ||
    (Truthy(q.citationKey) && r.citation.key == q.citationKey.value) ||
    NumberHit(q, r.node)
  }

  /** The row satisfies the database condition. */
  predicate Selected(q: LookupQuery, test: TitleTest, r: Row) {
    Hit(q, r) &&
    (if q.asOf.Some? then Citable(r.version) else r.version.status == PUBLISHED) &&
    (Truthy(q.documentId) ==> r.version.documentId == q.documentId.value) &&
    (Truthy(q.titleHint) ==> test(r.title, q.titleHint.value))
  }

  predicate Answers(q: LookupQuery, test: TitleTest, r: Row) {
    Selected(q, test, r) && (q.asOf.Some? ==> Covers(r.version, q.asOf.value))
  }

  /** The key under which answers are counted: version id, colon, node id. */
  function ProvisionKey(r: Row): (result: string) {
    r.citation.versionId + ":" + r.citation.nodeId
  }

  predicate SameProvision(a: Row, b: Row) {
    ProvisionKey(a) == ProvisionKey(b)
  }

  /** The distinct provisions among some rows. */
  function Provisions(rows: seq<Row>): (r: set<string>)
    decreases |rows|
  {
    if rows == [] then {} else Provisions(rows[..|rows| - 1]) + {ProvisionKey(rows[|rows| - 1])}
  }

  lemma {:induction false} ProvisionsMembers(rows: seq<Row>)
    ensures forall m :: m in rows ==> ProvisionKey(m) in Provisions(rows)
    ensures forall k :: k in Provisions(rows) ==> exists m :: m in rows && ProvisionKey(m) == k
    decreases |rows|
  {
    if rows != [] {
      ProvisionsMembers(rows[..|rows| - 1]);
      assert rows == rows[..|rows| - 1] + [rows[|rows| - 1]];
    }
  }

  /** The row answers and no earlier row of its provision does. */
  predicate IsFirstAnswer(table: seq<Row>, q: LookupQuery, test: TitleTest, k: nat)
    requires k < |table|
  {
    Answers(q, test, table[k]) &&
    forall j :: 0 <= j < k && Answers(q, test, table[j]) ==> !SameProvision(table[j], table[k])
  }

  /** The first answer of every provision among the first `n` rows. */
  function FirstAnswers(table: seq<Row>, q: LookupQuery, test: TitleTest, n: nat): (r: seq<Row>)
    requires n <= |table|
  {
    if n == 0 then []
    else FirstAnswers(table, q, test, n - 1) + if IsFirstAnswer(table, q, test, n - 1) then [table[n - 1]] else []
  }

  /** `findPublishedMatches` over the table in the order the database returns it. */
  method FindPublishedMatches(table: seq<Row>, q: LookupQuery, test: TitleTest) returns (matches: seq<Row>)
    ensures matches == FirstAnswers(table, q, test, |table|)
  {
    var seen: set<string> := {};
    matches := [];
    for k := 0 to |table|
      invariant matches == FirstAnswers(table, q, test, k)
      invariant forall i :: 0 <= i < k && Answers(q, test, table[i]) ==> ProvisionKey(table[i]) in seen
      invariant forall key :: key in seen ==>
                  exists i :: 0 <= i < k && Answers(q, test, table[i]) && ProvisionKey(table[i]) == key
    {
      var row := table[k];
      if !Selected(q, test, row) {
        continue;
      }
      if q.asOf.Some? && !Covers(row.version, q.asOf.value) {
        continue;
      }
      var key := ProvisionKey(row);
      if key in seen {
        continue;
      }
      seen := seen + {key};
      matches := matches + [row];
    }
  }

  ghost predicate OnePerProvision(matches: seq<Row>) {
    forall i, j :: 0 <= i < j < |matches| ==> !SameProvision(matches[i], matches[j])
  }

  lemma {:induction false} FirstAnswersSound(table: seq<Row>, q: LookupQuery, test: TitleTest, n: nat)
    requires n <= |table|
    ensures forall m :: m in FirstAnswers(table, q, test, n) ==> m in table[..n] && Answers(q, test, m)
  {
    if n > 0 {
      FirstAnswersSound(table, q, test, n - 1);
      assert table[..n] == table[..n - 1] + [table[n - 1]];
    }
  }

  lemma ProvisionsSnoc(rows: seq<Row>, last: Row)
    ensures Provisions(rows + [last]) == Provisions(rows) + {ProvisionKey(last)}
  {
    assert (rows + [last])[..|rows|] == rows;
  }

  lemma {:induction false} FirstAnswersComplete(table: seq<Row>, q: LookupQuery, test: TitleTest, n: nat, i: nat)
    requires i < n <= |table| && Answers(q, test, table[i])
    ensures ProvisionKey(table[i]) in Provisions(FirstAnswers(table, q, test, n))
    decreases n
  {
    var before := FirstAnswers(table, q, test, n - 1);
    ProvisionsSnoc(before, table[n - 1]);
    assert before + [] == before;
    if i < n - 1 {
      FirstAnswersComplete(table, q, test, n - 1, i);
    } else if !IsFirstAnswer(table, q, test, i) {
      var j :| 0 <= j < i && Answers(q, test, table[j]) && SameProvision(table[j], table[i]);
      FirstAnswersComplete(table, q, test, n - 1, j);
    }
  }

  lemma {:induction false} FirstAnswersDistinct(table: seq<Row>, q: LookupQuery, test: TitleTest, n: nat)
    requires n <= |table|
    ensures OnePerProvision(FirstAnswers(table, q, test, n))
  {
    if n > 0 {
      FirstAnswersDistinct(table, q, test, n - 1);
      var before := FirstAnswers(table, q, test, n - 1);
      FirstAnswersSound(table, q, test, n - 1);
      if IsFirstAnswer(table, q, test, n - 1) {
        forall i | 0 <= i < |before|
          ensures !SameProvision(before[i], table[n - 1])
        {
          assert before[i] in before;
          var j :| 0 <= j < n - 1 && table[..n - 1][j] == before[i];
          assert table[j] == before[i];
        }
      }
    }
  }

  /** The lookup returns answers only, every provision that answers, and each provision once. */
  lemma MatchesFound(table: seq<Row>, q: LookupQuery, test: TitleTest)
    ensures FoundIn(FirstAnswers(table, q, test, |table|), table, q, test)
    ensures OnePerProvision(FirstAnswers(table, q, test, |table|))
  {
    FirstAnswersSound(table, q, test, |table|);
    FirstAnswersDistinct(table, q, test, |table|);
    forall r | r in table && Answers(q, test, r)
      ensures ProvisionKey(r) in Provisions(FirstAnswers(table, q, test, |table|))
    {
      var i :| 0 <= i < |table| && table[i] == r;
      FirstAnswersComplete(table, q, test, |table|, i);
    }
    assert table[..|table|] == table;
  }

  // ----- Verification -----

  datatype CitationStatus = VALID | UNRESOLVED | CONFLICT
  datatype VerdictReason = CitationUnresolved | AsOfUnavailable | CitationConflict | CitationUnique
  datatype Verdict = Verdict(
    status: CitationStatus, nodeId: Option<string>, versionId: Option<string>, locator: Option<string>,
    reasons: seq<VerdictReason>)

  /** `classifyCitationMatches`: by the number of distinct provisions. */
  function Classify(matches: seq<Row>): (r: CitationStatus) {
    if matches == [] then UNRESOLVED else if |Provisions(matches)| == 1 then VALID else CONFLICT
  }

  /** What the lookup promises about its answers. */
  ghost predicate FoundIn(matches: seq<Row>, table: seq<Row>, q: LookupQuery, test: TitleTest) {
    (forall m :: m in matches ==> m in table && Answers(q, test, m)) &&
    (forall r :: r in table && Answers(q, test, r) ==> ProvisionKey(r) in Provisions(matches))
  }

  ghost predicate Unanswered(table: seq<Row>, q: LookupQuery, test: TitleTest) {
    forall r :: r in table ==> !Answers(q, test, r)
  }

  /** All rows that answer are of one provision. */
  ghost predicate Unanimous(table: seq<Row>, q: LookupQuery, test: TitleTest) {
    forall a, b :: a in table && b in table && Answers(q, test, a) && Answers(q, test, b) ==> SameProvision(a, b)
  }

  lemma OneElement(keys: set<string>, k: string)
    requires k in keys
    ensures |keys| == 1 <==> forall x :: x in keys ==> x == k
  {
    if |keys| == 1 {
      assert |keys - {k}| == 0;
    }
    if forall x :: x in keys ==> x == k {
      assert keys == {k};
    }
  }

  lemma UnanimousMeaning(matches: seq<Row>, table: seq<Row>, q: LookupQuery, test: TitleTest)
    requires FoundIn(matches, table, q, test) && matches != []
    ensures |Provisions(matches)| == 1 <==> Unanimous(table, q, test)
  {
    var first := matches[0];
    assert first in matches;
    ProvisionsMembers(matches);
    OneElement(Provisions(matches), ProvisionKey(first));
    if Unanimous(table, q, test) {
      forall k | k in Provisions(matches)
        ensures k == ProvisionKey(first)
      {
        var m :| m in matches && ProvisionKey(m) == k;
        assert SameProvision(m, first);
      }
    }
  }

  datatype Candidate = Candidate(
    query: string, nodeId: Option<string>, documentId: Option<string>, locator: Option<string>, asOf: Option<Stamp>)

  function CandidateQuery(c: Candidate, parsed: ParsedQuery): (r: LookupQuery) {
    LookupQuery(c.query, c.nodeId, c.documentId, if c.locator.Some? then c.locator else parsed.locator, None,
                parsed.titleHint, parsed.article, parsed.paragraph, c.asOf)
  }

  // ----- What a candidate means, stated on its own fields and on the row -----

  predicate Named(given: Option<string>, s: string) {
    Truthy(given) && s == given.value
  }

  /** Paragraph p of article a, or, when no paragraph was read, article a. */
  predicate MeansNumbers(parsed: ParsedQuery, n: FlatNode) {
    Truthy(parsed.article) && n.article == parsed.article &&
    if Truthy(parsed.paragraph) then n.nodeType == PARAGRAPH && n.paragraph == parsed.paragraph
    else n.nodeType == ARTICLE
  }

  /** The version is published; at an instant it is published or superseded and both its bounds enclose the instant. */
  predicate ShownAt(v: Version, asOf: Option<Stamp>) {
    match asOf
    case None => v.status == PUBLISHED
    case Some(i) =>
      v.status in {PUBLISHED, SUPERSEDED} && i.At? && v.from.Some? && v.to.Some? && v.from.value <= i.ms < v.to.value
  }

  /** The row is what the candidate asks for: named by its text, ids or numbers, and within document, title and time. */
  predicate Meant(c: Candidate, parsed: ParsedQuery, test: TitleTest, r: Row) {
    (r.citation.key == c.query || r.citation.locator == c.query || Named(c.nodeId, r.citation.nodeId) ||
     Named(if c.locator.Some? then c.locator else parsed.locator, r.citation.locator) ||
     MeansNumbers(parsed, r.node)) &&
    ShownAt(r.version, c.asOf) &&
    (Truthy(c.documentId) ==> r.version.documentId == c.documentId.value) &&
    (Truthy(parsed.titleHint) ==> test(r.title, parsed.titleHint.value))
  }

  lemma MeantAnswers(c: Candidate, parsed: ParsedQuery, test: TitleTest, r: Row)
    ensures Answers(CandidateQuery(c, parsed), test, r) <==> Meant(c, parsed, test, r)
  {
  }

  ghost predicate NothingMeant(table: seq<Row>, c: Candidate, parsed: ParsedQuery, test: TitleTest) {
    forall r :: r in table ==> !Meant(c, parsed, test, r)
  }

  /** All rows that are meant are one provision. */
  ghost predicate OneMeant(table: seq<Row>, c: Candidate, parsed: ParsedQuery, test: TitleTest) {
    forall a, b :: a in table && b in table && Meant(c, parsed, test, a) && Meant(c, parsed, test, b) ==>
      SameProvision(a, b)
  }

  lemma MeantTable(table: seq<Row>, c: Candidate, parsed: ParsedQuery, test: TitleTest)
    ensures Unanswered(table, CandidateQuery(c, parsed), test) <==> NothingMeant(table, c, parsed, test)
    ensures Unanimous(table, CandidateQuery(c, parsed), test) <==> OneMeant(table, c, parsed, test)
  {
    forall r
      ensures Answers(CandidateQuery(c, parsed), test, r) <==> Meant(c, parsed, test, r)
    {
      MeantAnswers(c, parsed, test, r);
    }
  }

  lemma StatusMeaning(matches: seq<Row>, table: seq<Row>, q: LookupQuery, test: TitleTest)
    requires FoundIn(matches, table, q, test)
    ensures matches == [] <==> Unanswered(table, q, test)
    ensures matches != [] ==> (Classify(matches) == VALID <==> Unanimous(table, q, test))
    ensures matches == [] ==> Unanimous(table, q, test)
  {
    SomeMember(matches);
    if matches != [] {
      UnanimousMeaning(matches, table, q, test);
    }
  }

  /** The verdict names a row that is meant. */
  ghost predicate NamesMeant(verdict: Verdict, table: seq<Row>, c: Candidate, parsed: ParsedQuery, test: TitleTest) {
    exists r :: r in table && Meant(c, parsed, test, r) && Names(verdict, r)
  }

  /**
   `verifyOne`: UNRESOLVED when no row is meant, CONFLICT when rows of two provisions are, and
   otherwise VALID, naming a row that is meant.
   */
  method VerifyOne(table: seq<Row>, c: Candidate, parsed: ParsedQuery, test: TitleTest) returns (verdict: Verdict)
    ensures verdict.status == StatusOf(table, c, parsed, test)
    ensures verdict.status == UNRESOLVED <==> NothingMeant(table, c, parsed, test)
    ensures verdict.status == CONFLICT <==> !OneMeant(table, c, parsed, test)
    ensures verdict.status != VALID ==> verdict.nodeId.None? && verdict.versionId.None? && verdict.locator.None?
    ensures verdict.status == VALID ==> NamesMeant(verdict, table, c, parsed, test)
    ensures verdict.reasons == match verdict.status
                               case VALID => [CitationUnique]
                               case CONFLICT => [CitationConflict]
                               case UNRESOLVED => [CitationUnresolved] + if c.asOf.Some? then [AsOfUnavailable] else []
  {
    var q := CandidateQuery(c, parsed);
    var matches := FindPublishedMatches(table, q, test);
    MatchesFound(table, q, test);
    StatusMeaning(matches, table, q, test);
    MeantTable(table, c, parsed, test);
    var status := Classify(matches);
    var reasons := match status
      case UNRESOLVED => if c.asOf.Some? then [CitationUnresolved, AsOfUnavailable] else [CitationUnresolved]
      case CONFLICT => [CitationConflict]
      case VALID => [CitationUnique];
    if matches == [] {
      verdict := RefuseIfNotValid(Verdict(status, None, None, None, reasons));
    } else {
      var first := matches[0].citation;
      verdict := RefuseIfNotValid(Verdict(status, Some(first.nodeId), Some(first.versionId), Some(first.locator),
                                          reasons));
      assert matches[0] in matches;
      MeantAnswers(c, parsed, test, matches[0]);
    }
  }

  predicate Names(verdict: Verdict, r: Row) {
    verdict.nodeId == Some(r.citation.nodeId) && verdict.versionId == Some(r.citation.versionId) &&
    verdict.locator == Some(r.citation.locator)
  }

  function RefuseIfNotValid(verdict: Verdict): (r: Verdict) {
    if verdict.status != VALID then Verdict(verdict.status, None, None, None, verdict.reasons) else verdict
  }

  // ----- Phrases -----

  /** A phrase alone: no node, document, locator or instant is given with it. */
  function Phrase(text: string): (c: Candidate) {
    Candidate(text, None, None, None, None)
  }

  /** A phrase read as article a of a law with this title. */
  function ArticleOf(title: string, a: string): (q: ParsedQuery) {
    ParsedQuery(Some(title), Some(a), None, Some(Spell(ArticlePath(a))))
  }

  /** A phrase read as paragraph p of article a of a law with this title. */
  function ParagraphOf(title: string, a: string, p: string): (q: ParsedQuery) {
    ParsedQuery(Some(title), Some(a), Some(p), Some(Spell(ParagraphPath(a, p))))
  }

  /** The text of the phrase is not itself the key or the locator of a row. */
  ghost predicate OnlyWords(table: seq<Row>, text: string) {
    forall r :: r in table ==> r.citation.key != text && r.citation.locator != text
  }

  /** A published row of a document with the title that has the locator or the numbers. */
  predicate IsProvision(r: Row, title: string, locator: string, t: NodeType, a: string, p: Option<string>,
                        test: TitleTest) {
    r.version.status == PUBLISHED && test(r.title, title) &&
    (r.citation.locator == locator ||
     (r.node.nodeType == t && r.node.article == Some(a) && (p.Some? ==> r.node.paragraph == p)))
  }

  /** Whatever else is given: no row of a document whose title fails the hint is meant. */
  lemma TitleHintDecides(c: Candidate, parsed: ParsedQuery, test: TitleTest, r: Row)
    requires Truthy(parsed.titleHint) && !test(r.title, parsed.titleHint.value)
    ensures !Answers(CandidateQuery(c, parsed), test, r)
  {
    MeantAnswers(c, parsed, test, r);
  }

  /** Article a of a named law: the rows meant are that article in published versions of laws with the title. */
  lemma ArticlePhrase(table: seq<Row>, text: string, title: string, a: string, test: TitleTest, r: Row)
    requires OnlyWords(table, text) && r in table && title != "" && a != ""
    ensures Meant(Phrase(text), ArticleOf(title, a), test, r) <==>
              IsProvision(r, title, "art-" + a, ARTICLE, a, None, test)
  {
  }

  /** Paragraph p of article a of a named law. */
  lemma ParagraphPhrase(table: seq<Row>, text: string, title: string, a: string, p: string, test: TitleTest, r: Row)
    requires OnlyWords(table, text) && r in table && title != "" && a != "" && p != ""
    ensures Meant(Phrase(text), ParagraphOf(title, a, p), test, r) <==>
              IsProvision(r, title, "art-" + a + "/p-" + p, PARAGRAPH, a, Some(p), test)
  {
  }

  /** There is a row that fits, and all rows that fit are one provision. */
  ghost predicate ExactlyOne(table: seq<Row>, fits: Row -> bool) {
    (exists r :: r in table && fits(r)) &&
    forall a, b :: a in table && b in table && fits(a) && fits(b) ==> SameProvision(a, b)
  }

  /** The status of a candidate, as the lookup and the count of provisions determine it. */
  function StatusOf(table: seq<Row>, c: Candidate, parsed: ParsedQuery, test: TitleTest): (s: CitationStatus) {
    Classify(FirstAnswers(table, CandidateQuery(c, parsed), test, |table|))
  }

  lemma StatusIs(table: seq<Row>, c: Candidate, parsed: ParsedQuery, test: TitleTest)
    ensures StatusOf(table, c, parsed, test) == UNRESOLVED <==> NothingMeant(table, c, parsed, test)
    ensures StatusOf(table, c, parsed, test) == CONFLICT <==> !OneMeant(table, c, parsed, test)
  {
    var q := CandidateQuery(c, parsed);
    MatchesFound(table, q, test);
    StatusMeaning(FirstAnswers(table, q, test, |table|), table, q, test);
    MeantTable(table, c, parsed, test);
  }

  lemma ValidExactly(table: seq<Row>, c: Candidate, parsed: ParsedQuery, test: TitleTest, fits: Row -> bool)
    requires forall r :: r in table ==> (Meant(c, parsed, test, r) <==> fits(r))
    ensures StatusOf(table, c, parsed, test) == VALID <==> ExactlyOne(table, fits)
  {
    StatusIs(table, c, parsed, test);
  }

  /**
   A phrase read as a title and article a is VALID exactly when one provision of the published
   documents with that title has the article's locator or number.
   */
  lemma ArticlePhraseValid(table: seq<Row>, text: string, title: string, a: string, test: TitleTest)
    requires OnlyWords(table, text) && title != "" && a != ""
    ensures StatusOf(table, Phrase(text), ArticleOf(title, a), test) == VALID <==>
              ExactlyOne(table, r => IsProvision(r, title, "art-" + a, ARTICLE, a, None, test))
  {
    var parsed := ArticleOf(title, a);
    forall r | r in table
      ensures Meant(Phrase(text), parsed, test, r) <==> IsProvision(r, title, "art-" + a, ARTICLE, a, None, test)
    {
      ArticlePhrase(table, text, title, a, test, r);
    }
    ValidExactly(table, Phrase(text), parsed, test, r => IsProvision(r, title, "art-" + a, ARTICLE, a, None, test));
  }

  /** The same for a title, article a and paragraph p. */
  lemma ParagraphPhraseValid(table: seq<Row>, text: string, title: string, a: string, p: string, test: TitleTest)
    requires OnlyWords(table, text) && title != "" && a != "" && p != ""
    ensures StatusOf(table, Phrase(text), ParagraphOf(title, a, p), test) == VALID <==>
              ExactlyOne(table, r => IsProvision(r, title, "art-" + a + "/p-" + p, PARAGRAPH, a, Some(p), test))
  {
    var parsed := ParagraphOf(title, a, p);
    var fits := r => IsProvision(r, title, "art-" + a + "/p-" + p, PARAGRAPH, a, Some(p), test);
    forall r | r in table
      ensures Meant(Phrase(text), parsed, test, r) <==> fits(r)
    {
      ParagraphPhrase(table, text, title, a, p, test, r);
    }
    ValidExactly(table, Phrase(text), parsed, test, fits);
  }

  // ----- A stored row verifies to itself -----

  /** The table holds exactly the citations stored for the versions of the store, joined with their nodes. */
  ghost predicate TableOf(st: Store, table: seq<Row>) {
    forall r :: r in table <==> Joined(st, r)
  }

  ghost predicate Joined(st: Store, r: Row) {
    r.version in History(st, r.version.documentId) &&
    r.version.id in st.citations && r.version.id in st.nodes &&
    r.citation in st.citations[r.version.id] && r.node in st.nodes[r.version.id] && r.citation.nodeId == r.node.id &&
    r.title == TitleOf(st, r.version.documentId)
  }

  ghost function TitleOf(st: Store, documentId: string): (r: string) {
    if exists u :: u in st.documents && st.documents[u].id == documentId
    then var u :| u in st.documents && st.documents[u].id == documentId; st.documents[u].title else ""
  }

  /** A lookup by a locator inside one document. */
  function LocatorQuery(documentId: string, locator: string): (q: LookupQuery) {
    CandidateQuery(Candidate(locator, None, Some(documentId), None, None), LatinHints(locator))
  }

  /** The hints that the phrase parser takes from a locator select the row, too. */
  predicate Hinted(locator: string, n: FlatNode) {
    var h := LatinHints(locator);
    h.locator == Some(n.sourceLocator) ||
    (h.article.Some? && n.nodeType == PARAGRAPH && n.article == h.article && n.paragraph == h.paragraph)
  }

  lemma KeyIsLocator(key: string, locator: string)
    requires KeyFits(key, locator)
    ensures key == locator || ':' in key
  {
    if key != locator {
      assert key[|key| - |locator| - 1] in key;
    }
  }

  /** The row stored for one citation of a version answers the query for its locator. */
  lemma JoinedRow(st: Store, d: string, v: Version, n: FlatNode) returns (r: Row)
    requires Inv(st) && v in History(st, d) && v.id in st.nodes && n in st.nodes[v.id] && n.nodeType != DOCUMENT
    ensures Joined(st, r) && r.version == v && r.node == n && Cites(r.citation, n)
  {
    HistoryOk(st, d);
    assert StoredVersion(st, v.id);
    assert IsCited(n, st.citations[v.id]);
    var c :| c in st.citations[v.id] && Cites(c, n);
    r := Row(c, n, v, TitleOf(st, d));
  }

  /** A joined row repeats its node, which is no DOCUMENT. */
  lemma JoinedCites(st: Store, r: Row)
    requires Inv(st) && Joined(st, r)
    ensures Cites(r.citation, r.node) && r.node.nodeType != DOCUMENT && r.citation.versionId == r.version.id
    ensures StoredVersion(st, r.version.id)
  {
    HistoryOk(st, r.version.documentId);
    assert StoredVersion(st, r.version.id);
    var rows := st.nodes[r.version.id];
    assert CitesSomeRow(r.citation, rows);
    var n :| n in rows && n.nodeType != DOCUMENT && Cites(r.citation, n);
    LookupUnique(rows, n);
    LookupUnique(rows, r.node);
  }

  lemma HitMeaning(d: string, locator: string, r: Row)
    requires Cites(r.citation, r.node) && locator != "" && ':' !in locator
    ensures Hit(LocatorQuery(d, locator), r) <==> r.node.sourceLocator == locator || Hinted(locator, r.node)
  {
    KeyIsLocator(r.citation.key, r.citation.locator);
    HintsComeTogether(locator);
  }

  /** The only published version of a document is its current one. */
  lemma PublishedIsCurrent(st: Store, d: string, v: Version, w: Version)
    requires Inv(st) && Current(History(st, d)) == Some(v) && w in History(st, w.documentId)
    ensures w.documentId == d && w.status == PUBLISHED <==> w == v
  {
    HistoryOk(st, d);
  }

  /** A lookup by locator selects rows of the current version: the one with the locator, and the hinted ones. */
  lemma SelectedRows(st: Store, d: string, r: Row, v: Version, locator: string, test: TitleTest)
    requires Inv(st) && Joined(st, r) && d != "" && locator != "" && ':' !in locator
    requires Current(History(st, d)) == Some(v)
    ensures Selected(LocatorQuery(d, locator), test, r) <==>
              r.version == v && (r.node.sourceLocator == locator || Hinted(locator, r.node))
  {
    JoinedCites(st, r);
    HitMeaning(d, locator, r);
    HintsComeTogether(locator);
    PublishedIsCurrent(st, d, v, r.version);
  }

  lemma HintsComeTogether(locator: string)
    ensures var h := LatinHints(locator);
            h.titleHint.None? && (h == NO_HINTS || (Truthy(h.article) && Truthy(h.paragraph) && Truthy(h.locator)))
  {
    MatchDigits(locator, 0);
  }

  /** Two rows of one version are one provision exactly when they are the same row. */
  lemma ProvisionsOfVersion(st: Store, a: Row, b: Row)
    requires Inv(st) && Joined(st, a) && Joined(st, b) && a.version == b.version
    ensures SameProvision(a, b) <==> a.node == b.node
  {
    var id := a.version.id;
    JoinedCites(st, a);
    JoinedCites(st, b);
    LookupUnique(st.nodes[id], a.node);
    LookupUnique(st.nodes[id], b.node);
    if SameProvision(a, b) {
      PrefixCancel(id + ":", a.node.id, b.node.id);
    }
  }

  /** The hints point at no other row of the version. */
  ghost predicate HintsAgree(rows: seq<FlatNode>, n: FlatNode) {
    forall m :: m in rows && m.nodeType != DOCUMENT && Hinted(n.sourceLocator, m) ==> m == n
  }

  /**
   In every reachable store, the locator of a row of the current version, given with its
   document, is answered; and by that row alone exactly when the numbers that the phrase parser
   reads from the locator point at no other row of the version.
   */
  lemma LocatorVerifiesExactly(st: Store, table: seq<Row>, test: TitleTest, d: string, v: Version, n: FlatNode)
    requires Inv(st) && TableOf(st, table) && d != "" && Current(History(st, d)) == Some(v)
    requires v.id in st.nodes && n in st.nodes[v.id] && n.nodeType != DOCUMENT && MatchesLocatorPattern(n.sourceLocator)
    ensures !Unanswered(table, LocatorQuery(d, n.sourceLocator), test)
    ensures Unanimous(table, LocatorQuery(d, n.sourceLocator), test) <==> HintsAgree(st.nodes[v.id], n)
    ensures HintsAgree(st.nodes[v.id], n) ==> AnsweredByOnly(table, LocatorQuery(d, n.sourceLocator), test, v, n)
  {
    PatternFacts(n.sourceLocator);
    var own := OwnRow(st, table, d, v, n, test);
    PlainLocatorVerifies(st, table, test, d, v, n, own);
  }

  lemma PatternFacts(s: string)
    requires MatchesLocatorPattern(s)
    ensures s != "" && ':' !in s
  {
    LocatorsArePlain(s);
  }

  ghost predicate AnsweredByOnly(table: seq<Row>, q: LookupQuery, test: TitleTest, v: Version, n: FlatNode) {
    forall r :: r in table && Answers(q, test, r) ==> r.node == n && r.version == v && Cites(r.citation, n)
  }

  lemma PlainLocatorVerifies(st: Store, table: seq<Row>, test: TitleTest, d: string, v: Version, n: FlatNode, own: Row)
    requires Inv(st) && TableOf(st, table) && d != "" && Current(History(st, d)) == Some(v)
    requires v.id in st.nodes && n in st.nodes[v.id] && n.sourceLocator != "" && ':' !in n.sourceLocator
    requires own in table && own.version == v && own.node == n && Answers(LocatorQuery(d, n.sourceLocator), test, own)
    ensures Unanimous(table, LocatorQuery(d, n.sourceLocator), test) <==> HintsAgree(st.nodes[v.id], n)
    ensures HintsAgree(st.nodes[v.id], n) ==> AnsweredByOnly(table, LocatorQuery(d, n.sourceLocator), test, v, n)
  {
    if HintsAgree(st.nodes[v.id], n) {
      AgreedAnswers(st, table, test, d, v, n, own);
    } else {
      AnotherHinted(st, table, test, d, v, n, own);
    }
  }

  /** A hinted row other than the one with the locator is a second provision. */
  lemma AnotherHinted(st: Store, table: seq<Row>, test: TitleTest, d: string, v: Version, n: FlatNode, own: Row)
    requires Inv(st) && TableOf(st, table) && d != "" && Current(History(st, d)) == Some(v)
    requires v.id in st.nodes && n.sourceLocator != "" && ':' !in n.sourceLocator
    requires own in table && own.version == v && own.node == n && Answers(LocatorQuery(d, n.sourceLocator), test, own)
    requires !HintsAgree(st.nodes[v.id], n)
    ensures !Unanimous(table, LocatorQuery(d, n.sourceLocator), test)
  {
    var m :| m in st.nodes[v.id] && m.nodeType != DOCUMENT && Hinted(n.sourceLocator, m) && m != n;
    HintedAnswers(st, table, d, v, n.sourceLocator, m, test, own);
  }

  lemma HintedAnswers(st: Store, table: seq<Row>, d: string, v: Version, locator: string, m: FlatNode,
                      test: TitleTest, own: Row)
    requires Inv(st) && TableOf(st, table) && d != "" && Current(History(st, d)) == Some(v) && v.id in st.nodes
    requires m in st.nodes[v.id] && m.nodeType != DOCUMENT && Hinted(locator, m) && locator != "" && ':' !in locator
    requires own in table && own.version == v && own.node != m && Answers(LocatorQuery(d, locator), test, own)
    ensures !Unanimous(table, LocatorQuery(d, locator), test)
  {
    HistoryOk(st, d);
    var r := JoinedRow(st, d, v, m);
    SelectedRows(st, d, r, v, locator, test);
    assert r in table && Answers(LocatorQuery(d, locator), test, r);
    ProvisionsOfVersion(st, r, own);
  }

  lemma AgreedAnswers(st: Store, table: seq<Row>, test: TitleTest, d: string, v: Version, n: FlatNode, own: Row)
    requires Inv(st) && TableOf(st, table) && d != "" && Current(History(st, d)) == Some(v)
    requires v.id in st.nodes && n in st.nodes[v.id] && n.sourceLocator != "" && ':' !in n.sourceLocator
    requires HintsAgree(st.nodes[v.id], n)
    ensures Unanimous(table, LocatorQuery(d, n.sourceLocator), test)
    ensures AnsweredByOnly(table, LocatorQuery(d, n.sourceLocator), test, v, n)
  {
    var q := LocatorQuery(d, n.sourceLocator);
    forall r | r in table && Answers(q, test, r)
      ensures Joined(st, r) && r.node == n && r.version == v && Cites(r.citation, n)
    {
      AnswerIsHinted(st, d, r, v, n, test);
    }
    forall a, b | a in table && b in table && Answers(q, test, a) && Answers(q, test, b)
      ensures SameProvision(a, b)
    {
      ProvisionsOfVersion(st, a, b);
    }
  }

  /** A row that answers is the row with the locator or a hinted one. */
  lemma AnswerIsHinted(st: Store, d: string, r: Row, v: Version, n: FlatNode, test: TitleTest)
    requires Inv(st) && Joined(st, r) && d != "" && Current(History(st, d)) == Some(v)
    requires v.id in st.nodes && n in st.nodes[v.id] && n.sourceLocator != "" && ':' !in n.sourceLocator
    requires Selected(LocatorQuery(d, n.sourceLocator), test, r)
    ensures r.version == v && r.node in st.nodes[v.id] && r.node.nodeType != DOCUMENT && Cites(r.citation, r.node)
    ensures r.node == n || Hinted(n.sourceLocator, r.node)
  {
    SelectedRows(st, d, r, v, n.sourceLocator, test);
    JoinedCites(st, r);
    if r.node.sourceLocator == n.sourceLocator {
      LocatorsApart(st.nodes[v.id], r.node, n);
    }
  }

  lemma LocatorsApart(rows: seq<FlatNode>, a: FlatNode, b: FlatNode)
    requires NoRepeats(Locators(rows)) && a in rows && b in rows && a.sourceLocator == b.sourceLocator
    ensures a == b
  {
    var i :| 0 <= i < |rows| && rows[i] == a;
    var j :| 0 <= j < |rows| && rows[j] == b;
    assert Locators(rows)[i] == Locators(rows)[j];
  }

  /** The row stored for `n` is in the table and answers the query for its locator. */
  lemma OwnRow(st: Store, table: seq<Row>, d: string, v: Version, n: FlatNode, test: TitleTest) returns (own: Row)
    requires Inv(st) && TableOf(st, table) && d != "" && Current(History(st, d)) == Some(v)
    requires v.id in st.nodes && n in st.nodes[v.id] && n.nodeType != DOCUMENT
    requires n.sourceLocator != "" && ':' !in n.sourceLocator
    ensures own in table && Joined(st, own) && own.node == n && own.version == v
    ensures Answers(LocatorQuery(d, n.sourceLocator), test, own)
  {
    HistoryOk(st, d);
    own := JoinedRow(st, d, v, n);
    SelectedRows(st, d, own, v, n.sourceLocator, test);
  }

  /** Without a dot the locator always verifies to its own row. */
  lemma LocatorVerifies(st: Store, table: seq<Row>, test: TitleTest, d: string, v: Version, n: FlatNode)
    requires Inv(st) && TableOf(st, table) && d != "" && Current(History(st, d)) == Some(v)
    requires v.id in st.nodes && n in st.nodes[v.id] && n.nodeType != DOCUMENT && MatchesLocatorPattern(n.sourceLocator)
    requires '.' !in n.sourceLocator
    ensures var q := LocatorQuery(d, n.sourceLocator);
            !Unanswered(table, q, test) && Unanimous(table, q, test) && AnsweredByOnly(table, q, test, v, n)
  {
    UndottedLocatorHints(n.sourceLocator);
    LocatorVerifiesExactly(st, table, test, d, v, n);
  }

  /** A dotted article a.b is confused with paragraph b of article a: with both in a version, a.b is a conflict. */
  lemma DottedArticleConflicts(st: Store, table: seq<Row>, test: TitleTest, d: string, v: Version, n: FlatNode,
                               m: FlatNode, a: string, b: string)
    requires Inv(st) && TableOf(st, table) && d != "" && Current(History(st, d)) == Some(v)
    requires v.id in st.nodes && n in st.nodes[v.id] && n.nodeType != DOCUMENT
    requires m in st.nodes[v.id] && m.nodeType == PARAGRAPH
    requires IsDigits(a) && IsDigits(b) && n.sourceLocator == Spell(ArticlePath(a + "." + b))
    requires m.sourceLocator == Spell(ParagraphPath(a, b))
    ensures !Unanimous(table, LocatorQuery(d, n.sourceLocator), test)
  {
    DottedIsAnother(a, b);
    LocatorVerifiesExactly(st, table, test, d, v, n);
    assert Hinted(n.sourceLocator, m);
  }

  lemma DottedIsAnother(a: string, b: string)
    requires IsDigits(a) && IsDigits(b)
    ensures var l := Spell(ArticlePath(a + "." + b));
            MatchesLocatorPattern(l) && l != Spell(ParagraphPath(a, b)) &&
            LatinHints(l).locator == Some(Spell(ParagraphPath(a, b)))
  {
    var p, q := ArticlePath(a + "." + b), ParagraphPath(a, b);
    assert a + "." + b + "" == a + "." + b && a + "" + "" == a;
    assert IsCompoundToken(p.article, a, Some(b), None) && IsCompoundToken(a, a, None, None);
    SpelledInGrammar(p);
    DottedLocatorHints(p, a, b, None);
    if Spell(p) == Spell(q) {
      SpellInjective(p, q);
    }
  }
}
