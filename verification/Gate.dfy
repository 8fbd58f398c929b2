/**
 The publication gate: confidence in the parse, hierarchy assertion, structure report,
 citation locators, locator grammar, invented levels, page chrome, hashes and effective end.
 The pattern for page chrome and the expectations about single known laws come from outside.
 */
module Gate {
  import opened Prelude
  import opened LegalNodes
  import opened Hierarchy
  import opened HierarchyCheck
  import opened Evaluation
  import opened LocatorGrammar

  datatype Reason =
    | ArchiveHashMismatch
    | HierarchyViolation(error: HierarchyError)
    | DuplicateLocators
    | OrphanNodes
    | InvalidParentRelationships
    | BrokenArticleHierarchy
    | DuplicateCitationLocators
    | InventedLocator
    | InventedStructuralLevel
    | UnsafeEffectiveTo
    | MissingTitle
    | MissingActType
    | MissingVersion
    | NoRecognizableProvisions
    | SuspiciouslyLowNodeCount
    | MalformedNumbering
    | EmptyLegalText
    | ChromeOrTocNode
    | KnownLaw(code: string)

  datatype ParsedVersion = ParsedVersion(id: string, tree: seq<Tree>, effectiveTo: Option<string>)

  /** `lawReasons` are the codes of unmet expectations about a known law, read off the flattened tree. */
  datatype GateInput = GateInput(
    title: string, actType: Option<string>, version: Option<ParsedVersion>, archiveSha: string, bytesSha: string,
    isChrome: string -> bool, lawReasons: seq<FlatNode> -> seq<string>)

  /** One of the codes for known laws is also the code for page chrome. */
  function LawReason(code: string): (r: Reason) {
    if code == "chrome_or_toc_node" then ChromeOrTocNode else KnownLaw(code)
  }

  function LawReasons(codes: seq<string>): (rs: seq<Reason>)
    ensures forall r :: r in rs <==> exists code :: code in codes && LawReason(code) == r
  {
    if codes == [] then [] else [LawReason(codes[0])] + LawReasons(codes[1..])
  }

  function Nodes(input: GateInput): (ts: seq<Tree>) {
    if input.version.Some? then input.version.value.tree else []
  }

  predicate EndsUnsafely(input: GateInput) {
    input.version.Some? && Truthy(input.version.value.effectiveTo)
  }

  /** Two rows other than DOCUMENT rows with the same locator. */
  ghost predicate CitationsCollide(flat: seq<FlatNode>) {
    exists i, j :: 0 <= i < j < |flat| && flat[i].nodeType != DOCUMENT && flat[j].nodeType != DOCUMENT &&
      flat[i].sourceLocator == flat[j].sourceLocator
  }

  predicate Invented(n: FlatNode) {
    !MatchesLocatorPattern(n.sourceLocator) || n.chapter == Some("0") || n.sourceLocator == "ch-0"
  }

  /** A row other than a DOCUMENT whose text or title is page chrome. */
  predicate IsChromeRow(n: FlatNode, isChrome: string -> bool) {
    n.nodeType != DOCUMENT &&
    (isChrome(Trim(n.text)) || isChrome(Trim(match n.title case None => "" case Some(t) => t)))
  }

  predicate BadArticleNumber(n: FlatNode) {
    n.nodeType == ARTICLE && (!Truthy(n.article) || n.article == Some("0"))
  }

  predicate HasText(n: FlatNode) {
    n.nodeType != DOCUMENT && !Blank(n.text)
  }

  /** When the confidence check raises each reason over the rows of a version. */
  ghost predicate RowsDoubted(flat: seq<FlatNode>, r: Reason) {
    match r
    case NoRecognizableProvisions => forall n :: n in flat ==> n.nodeType != ARTICLE
    case SuspiciouslyLowNodeCount => |flat| < 2
    case DuplicateLocators => !NoRepeats(Locators(flat))
    case MalformedNumbering => exists n :: n in flat && BadArticleNumber(n)
    case EmptyLegalText => forall n :: n in flat ==> !HasText(n)
    case _ => false
  }

  ghost predicate TreeDoubted(tree: seq<Tree>, r: Reason) {
    (r == BrokenArticleHierarchy && FirstError(VisitsAll(tree, None), {}, {}).Some?) || RowsDoubted(FlattenAll(tree), r)
  }

  /** When the confidence check raises each reason. Without a version it stops early. */
  ghost predicate Doubted(input: GateInput, r: Reason) {
    (r == MissingTitle && (|Trim(input.title)| < 3 || input.title == "Untitled")) ||
    (r == MissingActType && !Truthy(input.actType)) ||
    (r == MissingVersion && input.version.None?) ||
    (input.version.Some? && TreeDoubted(input.version.value.tree, r))
  }

  /** When the structure report raises each reason. */
  ghost predicate Reported(flat: seq<FlatNode>, r: Reason) {
    match r
    case DuplicateLocators => !Without(flat, |flat|, RepeatedLocator)
    case OrphanNodes => !Without(flat, |flat|, Orphan)
    case InvalidParentRelationships =>
      !Without(flat, |flat|, InvalidParent) || !Without(flat, |flat|, IncompatibleType)
    case BrokenArticleHierarchy => CountRoots(flat, |flat|) != 1
    case _ => false
  }

  /** When single rows, or two citation locators, raise each reason. */
  ghost predicate AtFault(flat: seq<FlatNode>, isChrome: string -> bool, r: Reason) {
    match r
    case DuplicateCitationLocators => CitationsCollide(flat)
    case InventedLocator => exists n :: n in flat && Invented(n)
    case InventedStructuralLevel => exists n :: n in flat && n.nodeType in {BOOK, PART, SECTION}
    case ChromeOrTocNode => exists n :: n in flat && IsChromeRow(n, isChrome)
    case _ => false
  }

  /** When each reason is raised, stated on the flattened tree. */
  ghost predicate Raised(input: GateInput, r: Reason) {
    var flat := FlattenAll(Nodes(input));
    Doubted(input, r) || Reported(flat, r) || AtFault(flat, input.isChrome, r) ||
    r in LawReasons(input.lawReasons(flat)) ||
    (r == ArchiveHashMismatch && input.archiveSha != input.bytesSha) ||
    (r.HierarchyViolation? && FirstError(VisitsAll(Nodes(input), None), {}, {}) == Some(r.error)) ||
    (r == UnsafeEffectiveTo && EndsUnsafely(input))
  }

  method FlattenTree(ts: seq<Tree>) returns (out: seq<FlatNode>)
    ensures out == FlattenAll(ts)
    decreases ts
  {
    if ts == [] {
      return [];
    }
    var below := FlattenTree(ts[0].children);
    var rest := FlattenTree(ts[1..]);
    out := [ts[0].node] + below + rest;
  }

  method FindCitationCollision(flat: seq<FlatNode>) returns (found: bool)
    ensures found <==> CitationsCollide(flat)
  {
    var seen: set<string> := {};
    for k := 0 to |flat|
      invariant forall l :: l in seen <==>
                  exists i :: 0 <= i < k && flat[i].nodeType != DOCUMENT && flat[i].sourceLocator == l
      invariant !CitationsCollide(flat[..k])
    {
      var node := flat[k];
      if node.nodeType != DOCUMENT {
        if node.sourceLocator in seen {
          return true;
        }
        seen := seen + {node.sourceLocator};
      }
      assert forall i :: 0 <= i < k ==> flat[..k + 1][i] == flat[..k][i];
    }
    assert flat[..|flat|] == flat;
    return false;
  }

  /** The reasons drawn from the structure report. Cycles and foreign versions raise none. */
  method StructureReasons(versionId: string, flat: seq<FlatNode>) returns (reasons: seq<Reason>)
    ensures forall r :: r in reasons <==> Reported(flat, r)
  {
    reasons := [];
    var report := EvaluateVersionStructure(versionId, flat);
    PassMeaning(versionId, flat, report.cycles);
    FlaggedEmpty(flat, |flat|, RepeatedLocator);
    FlaggedEmpty(flat, |flat|, Orphan);
    FlaggedEmpty(flat, |flat|, InvalidParent);
    FlaggedEmpty(flat, |flat|, IncompatibleType);
    if !report.pass {
      if report.duplicateLocators != [] {
        reasons := reasons + [DuplicateLocators];
      }
      if report.orphans != [] {
        reasons := reasons + [OrphanNodes];
      }
      if report.invalidParents != [] || report.incompatibleTypes != [] {
        reasons := reasons + [InvalidParentRelationships];
      }
      if report.documentParents != 1 {
        reasons := reasons + [BrokenArticleHierarchy];
      }
    }
  }

  /** The gate draws no reason from the structure report. */
  ghost predicate ReportSilent(flat: seq<FlatNode>) {
    forall r :: !Reported(flat, r)
  }

  /**
   The structure report fails although the gate draws no reason from it exactly when nothing it
   looks at is at fault and some row carries a foreign version. Cycles do not go unnoticed: they
   come with a reason of another kind.
   */
  lemma ForeignVersionsUnnoticed(versionId: string, flat: seq<FlatNode>)
    ensures !Passes(versionId, flat) && ReportSilent(flat) <==>
              ReportSilent(flat) && exists n :: n in flat && n.versionId != versionId
    ensures ReportSilent(flat) ==> forall n :: n in flat ==> !Endless(flat, n)
  {
    if ReportSilent(flat) {
      assert !Reported(flat, OrphanNodes) && !Reported(flat, InvalidParentRelationships);
      assert !Reported(flat, DuplicateLocators) && !Reported(flat, BrokenArticleHierarchy);
      TypesAgreeMeaning(flat);
      RankBoundsChains(flat);
      ForeignRows(versionId, flat);
    }
  }

  lemma ForeignRows(versionId: string, flat: seq<FlatNode>)
    ensures Without(flat, |flat|, WrongVersion(versionId)) <==> forall n :: n in flat ==> n.versionId == versionId
  {
    if Without(flat, |flat|, WrongVersion(versionId)) {
      forall n | n in flat
        ensures n.versionId == versionId
      {
        var i :| 0 <= i < |flat| && flat[i] == n;
        assert !Has(flat, i, WrongVersion(versionId));
      }
    } else {
      var i :| 0 <= i < |flat| && Has(flat, i, WrongVersion(versionId));
      assert flat[i] in flat;
    }
  }

  /** A page of one DOCUMENT row that carries another version: the report fails, the gate is silent. */
  lemma ForeignDocumentUnnoticed(versionId: string, n: FlatNode)
    requires n.nodeType == DOCUMENT && n.parentId.None? && n.versionId != versionId
    ensures !Passes(versionId, [n]) && ReportSilent([n])
  {
    assert n in [n] && CountRoots([n], 1) == CountRoots([n], 0) + 1;
    assert Has([n], 0, WrongVersion(versionId));
  }

  /** The reasons drawn from single rows and from citation locators. */
  method RowReasons(flat: seq<FlatNode>, isChrome: string -> bool) returns (reasons: seq<Reason>)
    ensures forall r :: r in reasons <==> AtFault(flat, isChrome, r)
  {
    reasons := [];
    var collision := FindCitationCollision(flat);
    if collision {
      reasons := reasons + [DuplicateCitationLocators];
    }
    if exists n :: n in flat && !MatchesLocatorPattern(n.sourceLocator) {
      reasons := reasons + [InventedLocator];
    }
    if exists n :: n in flat && (n.chapter == Some("0") || n.sourceLocator == "ch-0") {
      reasons := reasons + [InventedLocator];
    }
    if exists n :: n in flat && n.nodeType in {BOOK, PART, SECTION} {
      reasons := reasons + [InventedStructuralLevel];
    }
    if exists n :: n in flat && IsChromeRow(n, isChrome) {
      reasons := reasons + [ChromeOrTocNode];
    }
  }

  method FindRepeatedLocator(flat: seq<FlatNode>) returns (found: bool)
    ensures found <==> !NoRepeats(Locators(flat))
  {
    var seen: set<string> := {};
    for k := 0 to |flat|
      invariant forall l :: l in seen <==> l in Locators(flat)[..k]
      invariant NoRepeats(Locators(flat)[..k])
    {
      var l := Locators(flat)[k];
      if l in seen {
        assert l in Locators(flat)[..k];
        return true;
      }
      seen := seen + {l};
      assert Locators(flat)[..k + 1] == Locators(flat)[..k] + [l];
    }
    assert Locators(flat)[..|flat|] == Locators(flat);
    return false;
  }

  /** `assessParseConfidence`. */
  method AssessParseConfidence(input: GateInput) returns (reasons: seq<Reason>)
    ensures forall r :: r in reasons <==> Doubted(input, r)
  {
    reasons := if |Trim(input.title)| < 3 || input.title == "Untitled" then [MissingTitle] else [];
    if !Truthy(input.actType) {
      reasons := reasons + [MissingActType];
    }
    if input.version.None? {
      reasons := reasons + [MissingVersion];
      return;
    }
    var error := AssertLegalNodeHierarchy(input.version.value.tree);
    var flat := FlattenTree(input.version.value.tree);
    var doubts := AssessRows(flat);
    reasons := reasons + (if error.Some? then [BrokenArticleHierarchy] else []) + doubts;
  }

  /** The part of the confidence check that looks at the rows. */
  method AssessRows(flat: seq<FlatNode>) returns (reasons: seq<Reason>)
    ensures forall r :: r in reasons <==> RowsDoubted(flat, r)
  {
    reasons := [];
    if forall n :: n in flat ==> n.nodeType != ARTICLE {
      reasons := reasons + [NoRecognizableProvisions];
    }
    if |flat| < 2 {
      reasons := reasons + [SuspiciouslyLowNodeCount];
    }
    var repeated := FindRepeatedLocator(flat);
    if repeated {
      reasons := reasons + [DuplicateLocators];
    }
    if exists n :: n in flat && BadArticleNumber(n) {
      reasons := reasons + [MalformedNumbering];
    }
    if forall n :: n in flat ==> !HasText(n) {
      reasons := reasons + [EmptyLegalText];
    }
  }

  /** `[...new Set(reasons)]`. */
  method Unique(reasons: seq<Reason>) returns (out: seq<Reason>)
    ensures NoRepeats(out) && forall r :: r in out <==> r in reasons
  {
    out := [];
    for k := 0 to |reasons|
      invariant NoRepeats(out) && forall r :: r in out <==> r in reasons[..k]
    {
      assert reasons[..k + 1] == reasons[..k] + [reasons[k]];
      if reasons[k] !in out {
        out := out + [reasons[k]];
      }
    }
    assert reasons[..|reasons|] == reasons;
  }

  /** The gate lets a tree through exactly when no reason is raised. */
  method AssessPublicationGate(input: GateInput) returns (ok: bool, reasons: seq<Reason>)
    ensures NoRepeats(reasons) && forall r :: r in reasons <==> Raised(input, r)
    ensures ok <==> forall r :: !Raised(input, r)
  {
    reasons := AssessParseConfidence(input);
    reasons := reasons + if input.archiveSha != input.bytesSha then [ArchiveHashMismatch] else [];
    var error := AssertLegalNodeHierarchy(Nodes(input));
    reasons := reasons + if error.Some? then [HierarchyViolation(error.value)] else [];
    var flat := FlattenTree(Nodes(input));
    var structure := StructureReasons(if input.version.Some? then input.version.value.id else "gate", flat);
    var rows := RowReasons(flat, input.isChrome);
    reasons := reasons + structure + rows;
    reasons := reasons + if EndsUnsafely(input) then [UnsafeEffectiveTo] else [];
    reasons := reasons + LawReasons(input.lawReasons(flat));
    reasons := Unique(reasons);
    ok := reasons == [];
    SomeMember(reasons);
  }
}
