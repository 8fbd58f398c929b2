/**
 The tree that the parser returns, and what the publication gate says about it.
 */
module ParserTree {
  import opened Prelude
  import opened LegalNodes
  import opened Hierarchy
  import opened HierarchyCheck
  import opened Evaluation
  import opened Gate
  import opened LocatorGrammar
  import opened ParserModel
  import opened ParserInvariants
  import opened ParserLocators

  /** The rows of all nodes, in creation order. */
  function Rows(slots: seq<Slot>): (r: seq<FlatNode>)
    ensures |r| == |slots| && forall i :: 0 <= i < |r| ==> r[i] == slots[i].row
  {
    seq(|slots|, i requires 0 <= i < |slots| => slots[i].row)
  }

  lemma RowIds(env: Env, slots: seq<Slot>)
    requires ValidEnv(env) && SlotsOk(env, slots)
    ensures UniqueIds(Rows(slots)) && NoEmptyIds(Rows(slots))
  {
    forall i | 0 <= i < |slots|
      ensures slots[i].row.id == env.freshId(i) && slots[i].row.parentId != Some("")
    {
      assert SlotOk(env, slots, i);
    }
  }

  lemma UpIsParent(env: Env, slots: seq<Slot>, i: nat)
    requires ValidEnv(env) && SlotsOk(env, slots) && i < |slots|
    ensures i == 0 ==> Up(Rows(slots), slots[i].row).None?
    ensures i > 0 ==> slots[i].parent < i && Up(Rows(slots), slots[i].row) == Some(slots[slots[i].parent].row)
  {
    assert SlotOk(env, slots, i);
    if i > 0 {
      RowIds(env, slots);
      var p := slots[i].parent;
      assert SlotOk(env, slots, p);
      assert Rows(slots)[p] in Rows(slots);
      LookupUnique(Rows(slots), slots[p].row);
    }
  }

  lemma TypesOk(env: Env, slots: seq<Slot>)
    requires ValidEnv(env) && SlotsOk(env, slots)
    ensures TypesAgree(Rows(slots))
  {
    forall n | n in Rows(slots)
      ensures if Truthy(n.parentId) then
                Up(Rows(slots), n).Some? && ParentTypeAllowed(n.nodeType, Some(Up(Rows(slots), n).value.nodeType))
              else ParentTypeAllowed(n.nodeType, None)
    {
      var i :| 0 <= i < |slots| && Rows(slots)[i] == n;
      UpIsParent(env, slots, i);
      assert SlotOk(env, slots, i);
    }
  }

  lemma {:induction false} OneRootCounted(flat: seq<FlatNode>, k: nat, r: nat)
    requires k <= |flat| && forall j :: 0 <= j < |flat| ==> (IsDocumentRoot(flat[j]) <==> j == r)
    ensures CountRoots(flat, k) == if r < k then 1 else 0
  {
    if k > 0 {
      OneRootCounted(flat, k - 1, r);
    }
  }

  lemma OneDocument(env: Env, slots: seq<Slot>)
    requires SlotsOk(env, slots)
    ensures CountRoots(Rows(slots), |slots|) == 1
  {
    forall j | 0 <= j < |slots|
      ensures IsDocumentRoot(Rows(slots)[j]) <==> j == 0
    {
      assert SlotOk(env, slots, j);
    }
    OneRootCounted(Rows(slots), |slots|, 0);
  }

  /** The tree that the parser's objects form (see `LegalInfoParser`). */
  function TreeOf(slots: seq<Slot>): (r: seq<Tree>) {
    AssembleForest(Rows(slots))
  }

  /** The rows of the nodes pushed under slot `i`, in creation order. */
  function PushedRows(slots: seq<Slot>, k: nat, i: nat): (r: seq<FlatNode>)
    requires k <= |slots|
  {
    if k <= 1 then [] else PushedRows(slots, k - 1, i) + if slots[k - 1].parent == i then [slots[k - 1].row] else []
  }

  lemma {:induction false} PushedRowsAt(slots: seq<Slot>, k: nat, i: nat)
    requires k <= |slots|
    ensures |PushedRows(slots, k, i)| == |PushedUnder(slots, k, i)|
    ensures forall j :: 0 <= j < |PushedRows(slots, k, i)| ==>
              PushedUnder(slots, k, i)[j] < |slots| &&
              PushedRows(slots, k, i)[j] == slots[PushedUnder(slots, k, i)[j]].row
  {
    if k > 1 {
      PushedRowsAt(slots, k - 1, i);
    }
  }

  lemma ParentIdNames(env: Env, slots: seq<Slot>, j: nat, i: nat)
    requires ValidEnv(env) && SlotsOk(env, slots) && 0 < j < |slots| && i < |slots|
    ensures slots[j].parent == i <==> Truthy(slots[j].row.parentId) && slots[j].row.parentId.value == slots[i].row.id
  {
    assert SlotOk(env, slots, i);
    assert SlotOk(env, slots, j);
  }

  /** What hangs under a row by its parent ids is what the parser pushed under its node. */
  lemma {:induction false} KidsArePushed(env: Env, slots: seq<Slot>, k: nat, i: nat)
    requires ValidEnv(env) && SlotsOk(env, slots) && 0 < k <= |slots| && i < |slots|
    ensures Kids(Rows(slots)[..k], slots[i].row.id) == PushedRows(slots, k, i)
  {
    var row := slots[k - 1].row;
    assert Rows(slots)[..k] == Rows(slots)[..k - 1] + [row];
    KidsConcat(Rows(slots)[..k - 1], [row], slots[i].row.id);
    assert [row][1..] == [];
    if k == 1 {
      assert SlotOk(env, slots, 0);
      assert Rows(slots)[..0] == [];
    } else {
      KidsArePushed(env, slots, k - 1, i);
      ParentIdNames(env, slots, k - 1, i);
    }
  }

  // ----- Facts that survive reordering -----

  /** Two lists with the same members, each once. */
  ghost predicate SameMembers(a: seq<FlatNode>, b: seq<FlatNode>) {
    forall x :: Count(a, x) == Count(b, x)
  }

  lemma ReorderedFacts(a: seq<FlatNode>, b: seq<FlatNode>)
    requires UniqueIds(a) && SameMembers(a, b)
    ensures UniqueIds(b) && NoRepeats(b)
    ensures forall x :: x in a <==> x in b
  {
    forall x
      ensures Count(b, x) <= 1 && (x in a <==> x in b)
    {
      CountPositive(a, x);
      CountPositive(b, x);
      if x in a {
        NoRepeatsCount(a, x);
      }
    }
    CountsNoRepeats(b);
    forall i, j | 0 <= i < j < |b|
      ensures b[i].id != b[j].id
    {
      assert b[i] in b && b[j] in b && b[i] in a && b[j] in a;
      assert b[i] != b[j];
    }
  }

  lemma ReorderedUp(a: seq<FlatNode>, b: seq<FlatNode>, n: FlatNode)
    requires UniqueIds(a) && SameMembers(a, b)
    ensures Up(a, n) == Up(b, n)
  {
    ReorderedFacts(a, b);
    if Up(a, n).Some? {
      LookupUnique(b, Up(a, n).value);
    } else if Up(b, n).Some? {
      LookupUnique(a, Up(b, n).value);
    }
  }

  lemma ReorderedTypes(a: seq<FlatNode>, b: seq<FlatNode>)
    requires UniqueIds(a) && SameMembers(a, b) && TypesAgree(a)
    ensures TypesAgree(b)
  {
    ReorderedFacts(a, b);
    forall n | n in b
      ensures if Truthy(n.parentId) then
                Up(b, n).Some? && ParentTypeAllowed(n.nodeType, Some(Up(b, n).value.nodeType))
              else ParentTypeAllowed(n.nodeType, None)
    {
      ReorderedUp(a, b, n);
    }
  }

  lemma ReorderedRoots(a: seq<FlatNode>, b: seq<FlatNode>, root: FlatNode)
    requires UniqueIds(a) && SameMembers(a, b) && root in a && IsDocumentRoot(root)
    requires forall n :: n in a && IsDocumentRoot(n) ==> n == root
    ensures CountRoots(b, |b|) == 1
  {
    ReorderedFacts(a, b);
    var r :| 0 <= r < |b| && b[r] == root;
    forall j | 0 <= j < |b|
      ensures IsDocumentRoot(b[j]) <==> j == r
    {
      assert b[j] in b;
    }
    OneRootCounted(b, |b|, r);
  }

  /** No two different members share a locator. */
  ghost predicate LocatorsDiffer(a: seq<FlatNode>) {
    forall m, n :: m in a && n in a && m.sourceLocator == n.sourceLocator ==> m == n
  }

  lemma LocatorsDifferMeaning(a: seq<FlatNode>)
    requires NoRepeats(a)
    ensures LocatorsDiffer(a) <==> NoRepeats(Locators(a))
    ensures NoEmptyIds(a) ==> (LocatorsDiffer(a) <==> Without(a, |a|, RepeatedLocator))
  {
    if LocatorsDiffer(a) {
      forall i, j | 0 <= i < j < |a|
        ensures a[i].sourceLocator != a[j].sourceLocator
      {
        assert a[i] in a && a[j] in a && a[i] != a[j];
      }
    } else {
      var m, n :| m in a && n in a && m.sourceLocator == n.sourceLocator && m != n;
      var i :| 0 <= i < |a| && a[i] == m;
      var j :| 0 <= j < |a| && a[j] == n;
      var lo, hi := if i < j then i else j, if i < j then j else i;
      assert Locators(a)[lo] == Locators(a)[hi];
      if NoEmptyIds(a) {
        assert Has(a, hi, RepeatedLocator);
      }
    }
  }

  // ----- The hierarchy assertion on an assembled tree -----

  lemma {:induction false} MatchesParents(flat: seq<FlatNode>, t: Tree)
    requires UniqueIds(flat) && Matches(flat, t)
    ensures ParentsAgree(t, t.node.parentId)
    decreases t, 1
  {
    forall i | 0 <= i < |t.children|
      ensures t.children[i].node.parentId == Some(t.node.id)
    {
      assert Heads(t.children)[i] == t.children[i].node;
      KidsParent(flat, t.node, t.children[i].node);
    }
    MatchesParentsAll(flat, t.children, Some(t.node.id));
  }

  lemma {:induction false} MatchesParentsAll(flat: seq<FlatNode>, ts: seq<Tree>, parent: Option<string>)
    requires UniqueIds(flat) && forall i :: 0 <= i < |ts| ==> Matches(flat, ts[i]) && ts[i].node.parentId == parent
    ensures ParentsAgreeAll(ts, parent)
    decreases ts
  {
    if ts != [] {
      MatchesParents(flat, ts[0]);
      MatchesParentsAll(flat, ts[1..], parent);
    }
  }

  /** With sound ids, parents, locators and hashes only a repeated locator can be reported. */
  lemma {:induction false} OnlyDuplicateLocator(vs: seq<Visit>, ids: set<string>, locators: set<string>)
    requires forall i, j :: 0 <= i < j < |vs| ==> vs[i].node.id != vs[j].node.id
    requires ParentsHold(vs)
    requires forall i :: 0 <= i < |vs| ==>
               vs[i].node.id !in ids && !Blank(vs[i].node.sourceLocator) && !Blank(vs[i].node.contentHash)
    ensures FirstError(vs, ids, locators).Some? ==> FirstError(vs, ids, locators).value.DuplicateLocator?
    decreases |vs|
  {
    if vs != [] {
      assert forall i :: 0 <= i < |vs[1..]| ==> vs[1..][i] == vs[i + 1];
      OnlyDuplicateLocator(vs[1..], ids + {vs[0].node.id}, locators + {vs[0].node.sourceLocator});
    }
  }

  lemma {:induction false} LetterNotBlank(s: string)
    requires s != "" && !IsSpace(s[0])
    ensures !Blank(s)
    decreases |s|
  {
    if |s| > 1 && IsSpace(s[|s| - 1]) {
      LetterNotBlank(s[..|s| - 1]);
    }
  }

  // ----- The parser against the gate -----

  /** The parsed rows form one tree that holds each of them once. */
  lemma ParsedTree(env: Env, slots: seq<Slot>)
    requires ValidEnv(env) && SlotsOk(env, slots)
    ensures |TreeOf(slots)| == 1 && Matches(Rows(slots), TreeOf(slots)[0])
    ensures TreeOf(slots)[0].node == slots[0].row
    ensures SameMembers(Rows(slots), FlattenAll(TreeOf(slots)))
  {
    RowIds(env, slots);
    TypesOk(env, slots);
    OneDocument(env, slots);
    TypesAssembleOneTree(Rows(slots));
    var ts := TreeOf(slots);
    assert FlattenAll(ts) == Flatten(ts[0]) + FlattenAll(ts[1..]) == Flatten(ts[0]);
    var i :| 0 <= i < |slots| && Rows(slots)[i] == ts[0].node;
    assert SlotOk(env, slots, i);
  }

  lemma ParsedShape(env: Env, slots: seq<Slot>)
    requires ValidEnv(env) && SlotsOk(env, slots)
    ensures var flat := FlattenAll(TreeOf(slots));
            UniqueIds(flat) && NoEmptyIds(flat) && NoRepeats(flat) && TypesAgree(flat) &&
            CountRoots(flat, |flat|) == 1 && (forall n :: n in flat <==> n in Rows(slots))
  {
    var rows := Rows(slots);
    var flat := FlattenAll(TreeOf(slots));
    ParsedTree(env, slots);
    RowIds(env, slots);
    TypesOk(env, slots);
    ReorderedFacts(rows, flat);
    ReorderedTypes(rows, flat);
    assert forall i :: 0 <= i < |flat| ==> flat[i] in flat && flat[i] in rows;
    assert slots[0].row == rows[0] && rows[0] in rows;
    assert SlotOk(env, slots, 0);
    forall n | n in rows && IsDocumentRoot(n)
      ensures n == slots[0].row
    {
      var i :| 0 <= i < |slots| && rows[i] == n;
      assert SlotOk(env, slots, i);
    }
    ReorderedRoots(rows, flat, slots[0].row);
  }

  lemma PathSound(p: Path)
    requires ValidPath(p)
    ensures !Blank(Spell(p)) && MatchesLocatorPattern(Spell(p))
    ensures Spell(p) == "ch-0" ==> p.ChapterPath? && p.chapter[0] == '0'
  {
    SpelledInGrammar(p);
    FirstLetters(p);
    if InArticle(p) {
      SpellTail(p);
    }
    LetterNotBlank(Spell(p));
  }

  lemma RowSound(env: Env, slots: seq<Slot>, n: FlatNode)
    requires ValidEnv(env) && SlotsOk(env, slots) && n in Rows(slots)
    ensures !Blank(n.sourceLocator) && !Blank(n.contentHash) && !Invented(n)
    ensures n.nodeType !in {BOOK, PART, SECTION}
    ensures n.nodeType == DOCUMENT ==> n == slots[0].row
  {
    var i :| 0 <= i < |slots| && Rows(slots)[i] == n;
    LocatorSpellsPath(env, slots, i);
    PathSound(PathOf(slots, i));
    SlotSound(env, slots, i);
  }

  lemma SlotSound(env: Env, slots: seq<Slot>, i: nat)
    requires ValidEnv(env) && SlotsOk(env, slots) && i < |slots|
    ensures !Blank(slots[i].row.contentHash) && slots[i].row.nodeType !in {BOOK, PART, SECTION}
    ensures slots[i].row.nodeType == DOCUMENT ==> i == 0
    ensures slots[i].row.chapter != Some("0")
    ensures PathOf(slots, i).ChapterPath? ==> PathOf(slots, i).chapter != "" && PathOf(slots, i).chapter[0] != '0'
  {
    assert SlotOk(env, slots, i);
    if i > 0 && slots[i].row.nodeType == ARTICLE {
      var p := slots[i].parent;
      assert SlotOk(env, slots, p);
    }
  }

  lemma SameMembersDiffer(a: seq<FlatNode>, b: seq<FlatNode>)
    requires forall n :: n in a <==> n in b
    ensures LocatorsDiffer(a) <==> LocatorsDiffer(b)
  {
  }

  lemma RowLocators(slots: seq<Slot>)
    ensures NoRepeats(Locators(Rows(slots))) <==> DistinctLocators(slots)
  {
    assert forall i :: 0 <= i < |slots| ==> Locators(Rows(slots))[i] == slots[i].row.sourceLocator;
  }

  lemma UniqueNoRepeats(a: seq<FlatNode>)
    requires UniqueIds(a)
    ensures NoRepeats(a)
  {
  }

  lemma LocatorsAcrossOrders(env: Env, slots: seq<Slot>)
    requires ValidEnv(env) && SlotsOk(env, slots)
    ensures var flat := FlattenAll(TreeOf(slots));
            (LocatorsDiffer(flat) <==> DistinctLocators(slots)) &&
            (Without(flat, |flat|, RepeatedLocator) <==> DistinctLocators(slots)) &&
            (NoRepeats(Locators(flat)) <==> DistinctLocators(slots))
  {
    var rows := Rows(slots);
    var flat := FlattenAll(TreeOf(slots));
    ParsedShape(env, slots);
    RowIds(env, slots);
    UniqueNoRepeats(rows);
    LocatorsDifferMeaning(rows);
    LocatorsDifferMeaning(flat);
    SameMembersDiffer(rows, flat);
    RowLocators(slots);
  }

  /** Citations collide with any shared locator, unless a DOCUMENT row is involved. */
  lemma CollisionMeaning(flat: seq<FlatNode>)
    requires NoRepeats(flat)
    requires forall m, n :: m in flat && n in flat && m.sourceLocator == n.sourceLocator && m.nodeType == DOCUMENT ==>
               m == n
    ensures CitationsCollide(flat) <==> !LocatorsDiffer(flat)
  {
    if !LocatorsDiffer(flat) {
      var m, n :| m in flat && n in flat && m.sourceLocator == n.sourceLocator && m != n;
      var i :| 0 <= i < |flat| && flat[i] == m;
      var j :| 0 <= j < |flat| && flat[j] == n;
      var lo, hi := if i < j then i else j, if i < j then j else i;
      assert flat[lo].nodeType != DOCUMENT && flat[hi].nodeType != DOCUMENT;
    }
    if CitationsCollide(flat) {
      var i, j :| 0 <= i < j < |flat| && flat[i].nodeType != DOCUMENT && flat[j].nodeType != DOCUMENT &&
        flat[i].sourceLocator == flat[j].sourceLocator;
      assert flat[i] in flat && flat[j] in flat && flat[i] != flat[j];
    }
  }

  lemma CitationCollisions(env: Env, slots: seq<Slot>)
    requires ValidEnv(env) && SlotsOk(env, slots)
    ensures CitationsCollide(FlattenAll(TreeOf(slots))) <==> !DistinctLocators(slots)
  {
    var flat := FlattenAll(TreeOf(slots));
    ParsedShape(env, slots);
    LocatorsAcrossOrders(env, slots);
    forall m, n | m in flat && n in flat && m.sourceLocator == n.sourceLocator && m.nodeType == DOCUMENT
      ensures m == n
    {
      DocumentLocator(env, slots, m, n);
    }
    CollisionMeaning(flat);
  }

  /** Nothing else is located at the document root. */
  lemma DocumentLocator(env: Env, slots: seq<Slot>, m: FlatNode, n: FlatNode)
    requires SlotsOk(env, slots) && m in Rows(slots) && n in Rows(slots) && m.sourceLocator == n.sourceLocator
    requires m.nodeType == DOCUMENT
    ensures m == n
  {
    var i :| 0 <= i < |slots| && Rows(slots)[i] == m;
    var j :| 0 <= j < |slots| && Rows(slots)[j] == n;
    SameLocatorSamePath(env, slots, i, j);
    NonRootType(env, slots, i);
    NonRootType(env, slots, j);
  }

  lemma ParsedParents(env: Env, slots: seq<Slot>)
    requires ValidEnv(env) && SlotsOk(env, slots)
    ensures ParentsAgreeAll(TreeOf(slots), None)
  {
    var ts := TreeOf(slots);
    ParsedShape(env, slots);
    ParsedTree(env, slots);
    RowIds(env, slots);
    MatchesParents(Rows(slots), ts[0]);
    assert SlotOk(env, slots, 0);
    assert ts == [ts[0]];
  }

  /** The visits of a forest whose rows are sound and whose parents agree can only fail over a locator. */
  lemma OnlyLocatorsFail(ts: seq<Tree>)
    requires ParentsAgreeAll(ts, None) && UniqueIds(FlattenAll(ts))
    requires forall n :: n in FlattenAll(ts) ==> !Blank(n.sourceLocator) && !Blank(n.contentHash)
    ensures var error := FirstError(VisitsAll(ts, None), {}, {}); error.Some? ==> error.value.DuplicateLocator?
  {
    var vs, flat := VisitsAll(ts, None), FlattenAll(ts);
    ParentsHoldMeaning(ts, None);
    VisitsAreFlatten(ts, None);
    assert forall i :: 0 <= i < |vs| ==> vs[i].node == flat[i] && vs[i].node in flat;
    OnlyDuplicateLocator(vs, {}, {});
  }

  lemma ParsedRowsSound(env: Env, slots: seq<Slot>)
    requires ValidEnv(env) && SlotsOk(env, slots)
    ensures var flat := FlattenAll(TreeOf(slots));
            UniqueIds(flat) && forall n :: n in flat ==> !Blank(n.sourceLocator) && !Blank(n.contentHash)
  {
    ParsedShape(env, slots);
    forall n | n in FlattenAll(TreeOf(slots))
      ensures !Blank(n.sourceLocator) && !Blank(n.contentHash)
    {
      RowSound(env, slots, n);
    }
  }

  lemma HierarchyVerdict(env: Env, slots: seq<Slot>)
    requires ValidEnv(env) && SlotsOk(env, slots)
    ensures var error := FirstError(VisitsAll(TreeOf(slots), None), {}, {});
            (error.None? <==> DistinctLocators(slots)) && (error.Some? ==> error.value.DuplicateLocator?)
  {
    var ts := TreeOf(slots);
    ParsedParents(env, slots);
    ParsedRowsSound(env, slots);
    OnlyLocatorsFail(ts);
    AcceptedMeaning(ts);
    LocatorsAcrossOrders(env, slots);
  }

  /** The reasons drawn from the shape of the tree: hierarchy, structure report, locators, levels. */
  predicate Structural(r: Reason) {
    r in {DuplicateLocators, OrphanNodes, InvalidParentRelationships, BrokenArticleHierarchy,
          DuplicateCitationLocators, InventedLocator, InventedStructuralLevel} || r.HierarchyViolation?
  }

  /** What a repeated locator raises; the confidence check reports the failed assertion as a broken hierarchy. */
  predicate OverLocators(r: Reason) {
    r in {DuplicateLocators, DuplicateCitationLocators, BrokenArticleHierarchy} ||
    (r.HierarchyViolation? && r.error.DuplicateLocator?)
  }

  /** Every clause that looks at locators objects. */
  ghost predicate AllObject(input: GateInput) {
    Raised(input, DuplicateLocators) && Raised(input, DuplicateCitationLocators) &&
    Raised(input, BrokenArticleHierarchy) &&
    exists l :: Raised(input, HierarchyViolation(DuplicateLocator(l)))
  }

  /**
   For every sequence of lines, the gate's structural clauses find fault with the parsed
   tree exactly when the lines call for some locator twice, and then only over locators.
   */
  lemma GateVerdict(env: Env, title: string, lines: seq<Line>, input: GateInput)
    requires ValidEnv(env) && AllWellFormed(lines) && Nodes(input) == TreeOf(Run(env, title, lines).slots)
    ensures (forall r :: Structural(r) ==> !Raised(input, r)) <==> NoRepeats(LocatorKeys(lines))
    ensures forall r :: Structural(r) && Raised(input, r) ==> OverLocators(r)
    ensures !NoRepeats(LocatorKeys(lines)) ==> AllObject(input)
  {
    var slots := Run(env, title, lines).slots;
    RunInv(env, title, lines);
    DistinctIffKeysDistinct(env, title, lines);
    SlotsVerdict(env, slots, input);
  }

  lemma SlotsVerdict(env: Env, slots: seq<Slot>, input: GateInput)
    requires ValidEnv(env) && SlotsOk(env, slots) && Nodes(input) == TreeOf(slots)
    ensures (forall r :: Structural(r) ==> !Raised(input, r)) <==> DistinctLocators(slots)
    ensures forall r :: Structural(r) && Raised(input, r) ==> OverLocators(r)
    ensures !DistinctLocators(slots) ==> AllObject(input)
  {
    var flat := FlattenAll(Nodes(input));
    var error := FirstError(VisitsAll(Nodes(input), None), {}, {});
    DuplicateReasons(env, slots, flat, error);
    if !DistinctLocators(slots) {
      AllRaised(input, flat, error);
    }
    forall r | Structural(r)
      ensures Raised(input, r) ==> !DistinctLocators(slots) && OverLocators(r)
    {
      OnlyOverLocators(env, slots, input, r);
    }
  }

  lemma OnlyOverLocators(env: Env, slots: seq<Slot>, input: GateInput, r: Reason)
    requires ValidEnv(env) && SlotsOk(env, slots) && Nodes(input) == TreeOf(slots) && Structural(r)
    ensures Raised(input, r) ==> !DistinctLocators(slots) && OverLocators(r)
  {
    var flat, error := FlattenAll(Nodes(input)), FirstError(VisitsAll(Nodes(input), None), {}, {});
    DuplicateReasons(env, slots, flat, error);
    QuietRows(env, slots, flat, input.isChrome);
    QuietStructure(env, slots, flat, r);
    assert Reported(flat, DuplicateLocators) ==> !DistinctLocators(slots);
    assert AtFault(flat, input.isChrome, DuplicateCitationLocators) ==> !DistinctLocators(slots);
    QuietOtherwise(input, r, flat, error, !DistinctLocators(slots));
  }

  /** When rows and structure report are at fault over locators only, so is every structural reason. */
  lemma QuietOtherwise(input: GateInput, r: Reason, flat: seq<FlatNode>, error: Option<HierarchyError>, repeated: bool)
    requires Structural(r) && flat == FlattenAll(Nodes(input))
    requires error == FirstError(VisitsAll(Nodes(input), None), {}, {})
    requires NoRepeats(Locators(flat)) <==> !repeated
    requires (error.None? <==> !repeated) && (error.Some? ==> error.value.DuplicateLocator?)
    requires Reported(flat, r) ==> r == DuplicateLocators && repeated
    requires AtFault(flat, input.isChrome, r) ==> r == DuplicateCitationLocators && repeated
    ensures Raised(input, r) ==> repeated && OverLocators(r)
  {
    LawReasonsApart(input.lawReasons(flat), r);
    DoubtedOverLocators(input, r, flat, error, repeated);
  }

  lemma DoubtedOverLocators(
      input: GateInput, r: Reason, flat: seq<FlatNode>, error: Option<HierarchyError>, repeated: bool)
    requires Structural(r) && flat == FlattenAll(Nodes(input))
    requires error == FirstError(VisitsAll(Nodes(input), None), {}, {})
    requires NoRepeats(Locators(flat)) <==> !repeated
    requires error.None? <==> !repeated
    ensures Doubted(input, r) ==> repeated && OverLocators(r)
  {
  }

  lemma LawReasonsApart(codes: seq<string>, r: Reason)
    requires Structural(r)
    ensures r !in LawReasons(codes)
  {
  }

  /** The structure report of a parsed tree is clean apart from locators. */
  lemma QuietStructure(env: Env, slots: seq<Slot>, flat: seq<FlatNode>, r: Reason)
    requires ValidEnv(env) && SlotsOk(env, slots) && flat == FlattenAll(TreeOf(slots))
    ensures Reported(flat, r) ==> r == DuplicateLocators
  {
    ParsedShape(env, slots);
    TypesAgreeMeaning(flat);
  }

  /** No parsed row is invented. */
  lemma QuietRows(env: Env, slots: seq<Slot>, flat: seq<FlatNode>, isChrome: string -> bool)
    requires ValidEnv(env) && SlotsOk(env, slots) && flat == FlattenAll(TreeOf(slots))
    ensures forall r :: Structural(r) && AtFault(flat, isChrome, r) ==> r == DuplicateCitationLocators
  {
    ParsedMembers(env, slots);
    forall n | n in flat
      ensures !Invented(n) && n.nodeType !in {BOOK, PART, SECTION}
    {
      RowSound(env, slots, n);
    }
  }

  lemma ParsedMembers(env: Env, slots: seq<Slot>)
    requires ValidEnv(env) && SlotsOk(env, slots)
    ensures forall n :: n in FlattenAll(TreeOf(slots)) <==> n in Rows(slots)
  {
    ParsedShape(env, slots);
  }

  /** Four ways to say of a parsed tree that some locator repeats. */
  lemma DuplicateReasons(env: Env, slots: seq<Slot>, flat: seq<FlatNode>, error: Option<HierarchyError>)
    requires ValidEnv(env) && SlotsOk(env, slots) && flat == FlattenAll(TreeOf(slots))
    requires error == FirstError(VisitsAll(TreeOf(slots), None), {}, {})
    ensures NoRepeats(Locators(flat)) <==> DistinctLocators(slots)
    ensures Without(flat, |flat|, RepeatedLocator) <==> DistinctLocators(slots)
    ensures CitationsCollide(flat) <==> !DistinctLocators(slots)
    ensures error.None? <==> DistinctLocators(slots)
    ensures error.Some? ==> error.value.DuplicateLocator?
  {
    LocatorsAcrossOrders(env, slots);
    CitationCollisions(env, slots);
    HierarchyVerdict(env, slots);
  }

  lemma AllRaised(input: GateInput, flat: seq<FlatNode>, error: Option<HierarchyError>)
    requires flat == FlattenAll(Nodes(input)) && error == FirstError(VisitsAll(Nodes(input), None), {}, {})
    requires !NoRepeats(Locators(flat)) && CitationsCollide(flat) && error.Some? && error.value.DuplicateLocator?
    ensures AllObject(input)
  {
    assert Doubted(input, DuplicateLocators) && Doubted(input, BrokenArticleHierarchy);
    assert AtFault(flat, input.isChrome, DuplicateCitationLocators);
    assert Raised(input, HierarchyViolation(DuplicateLocator(error.value.locator)));
  }
}
