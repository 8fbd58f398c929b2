/**
 From the lines of a page to citations that verify: parsing, the gate, publication, reading
 back, and verification of the published locators, joined.
 */
module Pipeline {
  import opened Prelude
  import opened LegalNodes
  import opened Hierarchy
  import opened HierarchyCheck
  import opened Versions
  import opened LocatorGrammar
  import opened CitationQuery
  import opened Gate
  import opened ParserModel
  import PI = ParserInvariants
  import opened ParserLocators
  import opened ParserTree
  import PT = ParserText
  import opened IngestModel
  import opened IngestInvariants
  import opened IngestTheorems
  import C = Citations

  /** The version row is acceptable apart from its tree. */
  predicate RowAcceptable(q: Request) {
    q.from != Malformed && !Blank(q.hash) && !Blank(q.parserId) && !Blank(q.archiveId)
  }

  /** A page that was parsed from lines and is about to be published. */
  ghost predicate Parsed(env: Env, title: string, lines: seq<Line>, st: Store, q: Request) {
    ValidEnv(env) && PI.AllWellFormed(lines) && q.tree == TreeOf(Run(env, title, lines).slots) && RowAcceptable(q) &&
    Inv(st) && FreshIds(st, DoPublish(q))
  }

  /**
   The structural clauses of the gate let an unknown page through exactly when it can be published,
   and that is exactly when its lines call for no locator twice.
   */
  lemma NewPagePublishes(env: Env, title: string, lines: seq<Line>, st: Store, q: Request, input: GateInput)
    requires Parsed(env, title, lines, st, q) && q.url !in st.documents && Nodes(input) == q.tree
    ensures (forall r :: Structural(r) ==> !Raised(input, r)) <==> NoRepeats(LocatorKeys(lines))
    ensures Publish(st, q).1 == Published(q.freshDocument, q.freshVersion) <==> NoRepeats(LocatorKeys(lines))
  {
    GateVerdict(env, title, lines, input);
    ParsedAccepted(env, title, lines);
    NewDocumentPublishes(st, q);
  }

  /**
   New bytes, or a new parser, for a known page: the publish goes through exactly when the lines
   call for no locator twice and, for a source update, the current version does not start later.
   */
  lemma KnownPagePublishes(env: Env, title: string, lines: seq<Line>, st: Store, q: Request, id: string)
    requires Parsed(env, title, lines, st, q) && q.url in st.documents && id == st.documents[q.url].id
    requires FindSame(History(st, id), q.hash, q.parserId).None?
    ensures var flag := CanonicalizationFlag(History(st, id), q.hash, q.archiveId, q.parserId);
            Publish(st, q).1 == Published(id, q.freshVersion) <==>
              NoRepeats(LocatorKeys(lines)) && (flag || !StartsInFuture(History(st, id), q.now))
  {
    ParsedAccepted(env, title, lines);
    KnownDocumentPublishes(st, q);
  }

  lemma ParsedAccepted(env: Env, title: string, lines: seq<Line>)
    requires ValidEnv(env) && PI.AllWellFormed(lines)
    ensures Accepted(TreeOf(Run(env, title, lines).slots)) <==> NoRepeats(LocatorKeys(lines))
  {
    PI.RunInv(env, title, lines);
    var slots := Run(env, title, lines).slots;
    HierarchyVerdict(env, slots);
    AcceptedMeaning(TreeOf(slots));
    DistinctIffKeysDistinct(env, title, lines);
  }

  /** The published version is its document's current one and holds the stamped rows of the tree. */
  lemma PublishedCurrent(st: Store, q: Request, d: string) returns (v: Version)
    requires Inv(st) && Publish(st, q).1 == Published(d, q.freshVersion)
    ensures v.id == q.freshVersion && Current(History(Publish(st, q).0, d)) == Some(v)
    ensures v.id in Publish(st, q).0.nodes && Publish(st, q).0.nodes[v.id] == Stamped(FlattenAll(q.tree), v.id)
    ensures Accepted(q.tree)
  {
    if q.url in st.documents {
      v := KnownCurrent(st, q, d, History(st, d));
      KnownDocumentPublishes(st, q);
    } else {
      NewDocumentPublishes(st, q);
      v := NewVersion(q, d, 1, q.from);
      assert [] + [v] == [v];
    }
  }

  lemma KnownCurrent(st: Store, q: Request, d: string, vs: seq<Version>) returns (v: Version)
    requires q.url in st.documents && vs == History(st, st.documents[q.url].id)
    requires Publish(st, q).1 == Published(d, q.freshVersion)
    ensures v.id == q.freshVersion && Current(History(Publish(st, q).0, d)) == Some(v)
    ensures v.id in Publish(st, q).0.nodes && Publish(st, q).0.nodes[v.id] == Stamped(FlattenAll(q.tree), v.id)
  {
    var flag := CanonicalizationFlag(vs, q.hash, q.archiveId, q.parserId);
    NextShape(st, q, d, vs, flag);
    v := NewVersion(q, d, MaxNumber(vs) + 1, FromOf(q, flag));
    assert (SupersedeAll(vs, flag, q.now) + [v])[|vs|] == v;
  }

  /** The published rows assemble into the parsed tree, stamped with the version. */
  lemma PageReadsBack(env: Env, title: string, lines: seq<Line>, st: Store, q: Request, d: string)
    requires Parsed(env, title, lines, st, q) && Publish(st, q).1 == Published(d, q.freshVersion)
    ensures var next := Publish(st, q).0;
            q.freshVersion in next.nodes &&
            AssembleForest(next.nodes[q.freshVersion]) == RestampAll(q.tree, q.freshVersion)
  {
    var v := PublishedCurrent(st, q, d);
    PI.RunInv(env, title, lines);
    ParsedShape(env, Run(env, title, lines).slots);
    TreeReadsBack(q.tree, q.freshVersion);
  }

  /** The numbers read from a locator hint at a parsed row exactly when they spell its locator. */
  lemma HintedParsed(env: Env, slots: seq<Slot>, n: FlatNode, locator: string)
    requires PI.SlotsOk(env, slots) && n in Rows(slots)
    ensures n.nodeType == DOCUMENT ==> n.sourceLocator == "doc"
    ensures C.Hinted(locator, n) <==> LatinHints(locator).locator == Some(n.sourceLocator)
  {
    var i :| 0 <= i < |slots| && slots[i].row == n;
    assert PI.SlotOk(env, slots, i);
  }

  /** A stored row of a parsed page is a parsed row under another version id. */
  lemma StoredRow(env: Env, slots: seq<Slot>, versionId: string, n: FlatNode) returns (m: FlatNode)
    requires ValidEnv(env) && PI.SlotsOk(env, slots) && n in Stamped(FlattenAll(TreeOf(slots)), versionId)
    ensures m in Rows(slots) && n == m.(versionId := versionId) && MatchesLocatorPattern(n.sourceLocator)
    ensures n.nodeType == DOCUMENT ==> n.sourceLocator == "doc"
    ensures forall locator :: C.Hinted(locator, n) <==> LatinHints(locator).locator == Some(n.sourceLocator)
  {
    var flat := FlattenAll(TreeOf(slots));
    var i :| 0 <= i < |flat| && Stamped(flat, versionId)[i] == n;
    m := flat[i];
    assert m in flat;
    ParsedShape(env, slots);
    RowSound(env, slots, m);
    HintedParsed(env, slots, m, "");
    forall locator
      ensures C.Hinted(locator, n) <==> LatinHints(locator).locator == Some(n.sourceLocator)
    {
      HintedParsed(env, slots, m, locator);
    }
  }

  /** No row carries the locator that the numbers in this one spell. */
  ghost predicate NoNamesake(rows: seq<FlatNode>, locator: string) {
    forall m :: m in rows ==> LatinHints(locator).locator != Some(m.sourceLocator)
  }

  lemma HintIsProvision(locator: string)
    ensures LatinHints(locator).locator != Some("doc")
  {
    if FirstDotted(locator, 0).Some? {
      var (a, p) := FirstDotted(locator, 0).value;
      FirstLetters(ParagraphPath(a, p));
    }
  }

  lemma NamesakesAreHinted(env: Env, slots: seq<Slot>, versionId: string, n: FlatNode)
    requires ValidEnv(env) && PI.SlotsOk(env, slots)
    ensures var rows := Stamped(FlattenAll(TreeOf(slots)), versionId);
            C.HintsAgree(rows, n) <==> NoNamesake(rows, n.sourceLocator)
  {
    var rows := Stamped(FlattenAll(TreeOf(slots)), versionId);
    HintIsAnother(n.sourceLocator);
    HintIsProvision(n.sourceLocator);
    forall m | m in rows
      ensures C.Hinted(n.sourceLocator, m) <==> LatinHints(n.sourceLocator).locator == Some(m.sourceLocator)
      ensures m.nodeType == DOCUMENT ==> m.sourceLocator == "doc"
    {
      var p := StoredRow(env, slots, versionId, m);
    }
  }

  /**
   After a page is published, the locator of each of its provisions, given with the document, is
   answered; and it verifies to that provision alone exactly when the page has no namesake: a
   paragraph b of article a, for a locator that mentions a.b.
   */
  lemma PageVerifies(env: Env, title: string, lines: seq<Line>, st: Store, q: Request, next: Store, d: string,
                     table: seq<C.Row>, test: C.TitleTest, n: FlatNode)
    requires Parsed(env, title, lines, st, q) && Publish(st, q) == (next, Published(d, q.freshVersion)) && d != ""
    requires C.TableOf(next, table)
    requires q.freshVersion in next.nodes && n in next.nodes[q.freshVersion] && n.nodeType != DOCUMENT
    ensures var query := C.LocatorQuery(d, n.sourceLocator);
            !C.Unanswered(table, query, test) &&
            (C.Unanimous(table, query, test) <==> NoNamesake(next.nodes[q.freshVersion], n.sourceLocator)) &&
            forall r :: C.Unanimous(table, query, test) && r in table && C.Answers(query, test, r) ==> r.node == n
  {
    PublishKeepsInv(st, q);
    PI.RunInv(env, title, lines);
    var slots := Run(env, title, lines).slots;
    var v := PublishedCurrent(st, q, d);
    var m := StoredRow(env, slots, v.id, n);
    C.LocatorVerifiesExactly(next, table, test, d, v, n);
    NamesakesAreHinted(env, slots, v.id, n);
  }

  // ----- A page with article a.b and paragraph b of article a -----

  lemma SimpleRowPresent(env: Env, title: string, lines: seq<Line>, i: nat, a: string) returns (m: FlatNode)
    requires ValidEnv(env) && PI.AllWellFormed(lines) && i < |lines| && lines[i].Simple?
    requires ScanLines(lines[..i]).current == Some(a)
    ensures m in Rows(Run(env, title, lines).slots) && m.nodeType == PARAGRAPH
    ensures m.sourceLocator == Spell(ParagraphPath(a, lines[i].num))
  {
    PI.RunInv(env, title, lines[..i]);
    RunAgrees(env, title, lines[..i]);
    CurrentIsSome(env, Run(env, title, lines[..i]), ScanLines(lines[..i]));
    var j := PT.NoTextLost(env, title, lines, i);
    var slots := Run(env, title, lines).slots;
    PI.RunInv(env, title, lines);
    assert PI.SlotOk(env, slots, j);
    m := slots[j].row;
    assert Rows(slots)[j] == m;
  }

  lemma ArticleRowPresent(env: Env, title: string, lines: seq<Line>, k: nat) returns (n: FlatNode)
    requires ValidEnv(env) && PI.AllWellFormed(lines) && k < |lines| && lines[k].ArticleNumber?
    ensures n in Rows(Run(env, title, lines).slots) && n.nodeType == ARTICLE
    ensures n.sourceLocator == Spell(ArticlePath(ArticleToken(lines[k].main, lines[k].bis)))
  {
    var j := PT.NoTextLost(env, title, lines, k);
    var slots := Run(env, title, lines).slots;
    PI.RunInv(env, title, lines);
    assert PI.SlotOk(env, slots, j);
    n := slots[j].row;
    assert Rows(slots)[j] == n;
  }

  lemma StoredOf(env: Env, slots: seq<Slot>, versionId: string, m: FlatNode)
    requires ValidEnv(env) && PI.SlotsOk(env, slots) && m in Rows(slots)
    ensures m.(versionId := versionId) in Stamped(FlattenAll(TreeOf(slots)), versionId)
  {
    ParsedShape(env, slots);
    var flat := FlattenAll(TreeOf(slots));
    var i :| 0 <= i < |flat| && flat[i] == m;
    assert Stamped(flat, versionId)[i] == m.(versionId := versionId);
  }

  /** A page that numbers a paragraph b in article a, and has an article a.b. */
  predicate HasNamesake(lines: seq<Line>, i: nat, k: nat, a: string, b: string) {
    i < |lines| && k < |lines| && IsDigits(a) && IsDigits(b) &&
    lines[i].Simple? && lines[i].num == b && ScanLines(lines[..i]).current == Some(a) &&
    lines[k].ArticleNumber? && lines[k].main == a + "." + b && lines[k].bis.None?
  }

  /** Once such a page is published, the locator of article a.b is a conflict. */
  lemma NamesakePageConflicts(env: Env, title: string, lines: seq<Line>, st: Store, q: Request, next: Store, d: string,
                              table: seq<C.Row>, test: C.TitleTest, i: nat, k: nat, a: string, b: string)
    requires Parsed(env, title, lines, st, q) && Publish(st, q) == (next, Published(d, q.freshVersion)) && d != ""
    requires C.TableOf(next, table) && HasNamesake(lines, i, k, a, b)
    ensures !C.Unanimous(table, C.LocatorQuery(d, Spell(ArticlePath(a + "." + b))), test)
  {
    PublishKeepsInv(st, q);
    PI.RunInv(env, title, lines);
    var slots := Run(env, title, lines).slots;
    var v := PublishedCurrent(st, q, d);
    var m := SimpleRowPresent(env, title, lines, i, a);
    var n := ArticleRowPresent(env, title, lines, k);
    StoredOf(env, slots, v.id, m);
    StoredOf(env, slots, v.id, n);
    C.DottedArticleConflicts(next, table, test, d, v, n.(versionId := v.id), m.(versionId := v.id), a, b);
  }

  const DOTTED_PAGE := [
    ArticleNumber("1 A", "1", None, Some("A")), Simple("1. B", "1", "B"),
    ArticleNumber("1.1 C", "1.1", None, Some("C"))]

  const COUNTING := Env("v", (i: nat) => NatToString(i), s => "h")

  function PageRequest(tree: seq<Tree>): (q: Request) {
    Request("page", "b", "p", "a", None, "t", Unknown, tree, 1, "d", "v")
  }

  lemma PageRequestIsNew(tree: seq<Tree>)
    ensures var q := PageRequest(tree);
            RowAcceptable(q) && Inv(EMPTY_STORE) && FreshIds(EMPTY_STORE, DoPublish(q)) &&
            q.url !in EMPTY_STORE.documents
  {
  }

  lemma CountingIsValid()
    ensures ValidEnv(COUNTING)
  {
    forall i: nat, j: nat | COUNTING.freshId(i) == COUNTING.freshId(j)
      ensures i == j
    {
      NatToStringInjective(i, j);
    }
  }

  lemma DottedPageWellFormed()
    ensures PI.AllWellFormed(DOTTED_PAGE)
  {
    assert "1" + "" + "" == "1" && "1" + ".1" + "" == "1.1" && "." + "1" == ".1";
    assert IsCompoundToken("1", "1", None, None) && IsCompoundToken("1.1", "1", Some("1"), None);
  }

  lemma DottedPageScan()
    ensures LocatorKeys(DOTTED_PAGE) == ["art-1", "art-1.1"]
    ensures ScanLines(DOTTED_PAGE[..1]).current == Some("1")
  {
    var none := ScanLines([]);
    assert DOTTED_PAGE[..1] == [DOTTED_PAGE[0]] && DOTTED_PAGE[..1][..0] == [];
    assert ScanLines(DOTTED_PAGE[..1]) == ScanStep(none, DOTTED_PAGE[0]);
    assert DOTTED_PAGE[..2][..1] == DOTTED_PAGE[..1];
    assert ScanLines(DOTTED_PAGE[..2]) == ScanStep(ScanLines(DOTTED_PAGE[..1]), DOTTED_PAGE[1]);
    assert "art-" + "1" == "art-1" && "art-" + "1.1" == "art-1.1";
  }

  lemma DottedHasNamesake()
    ensures HasNamesake(DOTTED_PAGE, 1, 2, "1", "1") && Spell(ArticlePath("1" + "." + "1")) == "art-1.1"
    ensures NoRepeats(LocatorKeys(DOTTED_PAGE))
  {
    DottedPageScan();
    assert "1" + "." + "1" == "1.1" && "art-" + "1.1" == "art-1.1";
  }

  /** Three lines are enough, in an empty store: article 1 with a paragraph 1, and article 1.1. */
  lemma DottedPageConflicts(tree: seq<Tree>, next: Store, table: seq<C.Row>, test: C.TitleTest)
    requires tree == TreeOf(Run(COUNTING, "t", DOTTED_PAGE).slots)
    requires next == Publish(EMPTY_STORE, PageRequest(tree)).0 && C.TableOf(next, table)
    ensures !C.Unanimous(table, C.LocatorQuery("d", "art-1.1"), test)
  {
    CountingIsValid();
    DottedPageWellFormed();
    PageRequestIsNew(tree);
    DottedHasNamesake();
    ParsedAccepted(COUNTING, "t", DOTTED_PAGE);
    NewDocumentPublishes(EMPTY_STORE, PageRequest(tree));
    NamesakePageConflicts(
      COUNTING, "t", DOTTED_PAGE, EMPTY_STORE, PageRequest(tree), next, "d", table, test, 1, 2, "1", "1");
  }
}
