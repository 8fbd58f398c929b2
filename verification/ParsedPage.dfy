/**
 What the whole gate says about a parsed page, in terms of the lines that were read.
 */
module ParsedPage {
  import opened Prelude
  import opened LegalNodes
  import opened LocatorGrammar
  import opened Gate
  import opened ParserModel
  import opened ParserInvariants
  import opened ParserLocators
  import opened ParserText
  import opened ParserTree

  // ----- Confidence in a parsed tree -----

  /** The article tokens of the slots, one by one. */
  lemma {:induction false} TokensMembers(slots: seq<Slot>, k: nat, t: string)
    requires k <= |slots|
    ensures t in Tokens(slots, k) <==> exists i :: 0 <= i < k && IsArticle(slots[i].row, t)
  {
    if k > 0 {
      TokensMembers(slots, k - 1, t);
    }
  }

  /** An article number may be "0", but is never missing. */
  lemma FindArticleRow(env: Env, slots: seq<Slot>, n: FlatNode) returns (i: nat)
    requires SlotsOk(env, slots) && n in Rows(slots) && n.nodeType == ARTICLE
    ensures 0 < i < |slots| && slots[i].row == n && Truthy(n.article)
  {
    i :| 0 <= i < |slots| && Rows(slots)[i] == n;
    assert SlotOk(env, slots, i);
    LocatorSpellsPath(env, slots, i);
    var head, minor, bis :| IsCompoundToken(n.article.value, head, minor, bis);
  }

  lemma ScanSeesArticles(env: Env, title: string, lines: seq<Line>) returns (slots: seq<Slot>)
    requires ValidEnv(env) && AllWellFormed(lines)
    ensures slots == Run(env, title, lines).slots && SlotsOk(env, slots)
    ensures ScanLines(lines).seen == Tokens(slots, |slots|)
  {
    RunInv(env, title, lines);
    RunAgrees(env, title, lines);
    slots := Run(env, title, lines).slots;
  }

  lemma ArticlesOfTree(env: Env, slots: seq<Slot>, flat: seq<FlatNode>, tokens: set<string>)
    requires ValidEnv(env) && SlotsOk(env, slots) && flat == FlattenAll(TreeOf(slots)) &&
             tokens == Tokens(slots, |slots|)
    ensures forall n :: n in flat && n.nodeType == ARTICLE ==> Truthy(n.article) && n.article.value in tokens
    ensures forall t :: t in tokens ==> exists n :: n in flat && IsArticle(n, t)
  {
    forall n | n in flat && n.nodeType == ARTICLE
      ensures Truthy(n.article) && n.article.value in tokens
    {
      ArticleIsToken(env, slots, flat, n);
    }
    forall t | t in tokens
      ensures exists n :: n in flat && IsArticle(n, t)
    {
      TokenIsArticle(env, slots, flat, t);
    }
  }

  lemma DoubtsOverArticles(flat: seq<FlatNode>, tokens: set<string>)
    requires forall n :: n in flat && n.nodeType == ARTICLE ==> Truthy(n.article) && n.article.value in tokens
    requires forall t :: t in tokens ==> exists n :: n in flat && IsArticle(n, t)
    ensures RowsDoubted(flat, NoRecognizableProvisions) <==> tokens == {}
    ensures RowsDoubted(flat, MalformedNumbering) <==> "0" in tokens
  {
    if t :| t in tokens {
      var n :| n in flat && IsArticle(n, t);
    }
  }

  lemma ArticleIsToken(env: Env, slots: seq<Slot>, flat: seq<FlatNode>, n: FlatNode)
    requires ValidEnv(env) && SlotsOk(env, slots) && flat == FlattenAll(TreeOf(slots)) && n in flat &&
             n.nodeType == ARTICLE
    ensures Truthy(n.article) && n.article.value in Tokens(slots, |slots|)
  {
    ParsedMembers(env, slots);
    var i := FindArticleRow(env, slots, n);
    TokensMembers(slots, |slots|, n.article.value);
  }

  lemma TokenIsArticle(env: Env, slots: seq<Slot>, flat: seq<FlatNode>, t: string)
    requires ValidEnv(env) && SlotsOk(env, slots) && flat == FlattenAll(TreeOf(slots)) && t in Tokens(slots, |slots|)
    ensures exists n :: n in flat && IsArticle(n, t)
  {
    ParsedMembers(env, slots);
    TokensMembers(slots, |slots|, t);
    var i :| 0 <= i < |slots| && IsArticle(slots[i].row, t);
    assert Rows(slots)[i] in Rows(slots);
  }

  lemma TwoMembers<T>(s: seq<T>, x: T, y: T)
    requires x in s && y in s && x != y
    ensures |s| >= 2
  {
    var i :| 0 <= i < |s| && s[i] == x;
    var j :| 0 <= j < |s| && s[j] == y;
    assert i != j;
  }

  lemma ArticleVerdict(env: Env, title: string, lines: seq<Line>, flat: seq<FlatNode>)
    requires ValidEnv(env) && AllWellFormed(lines) && flat == FlattenAll(TreeOf(Run(env, title, lines).slots))
    ensures RowsDoubted(flat, NoRecognizableProvisions) <==> ScanLines(lines).seen == {}
    ensures RowsDoubted(flat, MalformedNumbering) <==> "0" in ScanLines(lines).seen
  {
    var slots := ScanSeesArticles(env, title, lines);
    ArticlesOfTree(env, slots, flat, ScanLines(lines).seen);
    DoubtsOverArticles(flat, ScanLines(lines).seen);
  }

  // ----- The number of nodes -----

  /** A page with more than the DOCUMENT node has a heading: the first node after it. */
  lemma FirstNodeIsKey(env: Env, slots: seq<Slot>)
    requires SlotsOk(env, slots) && |slots| >= 2
    ensures IsKey(slots[1].row)
  {
    assert SlotOk(env, slots, 0) && SlotOk(env, slots, 1);
  }

  lemma {:induction false} KeysNotEmpty(slots: seq<Slot>, k: nat, i: nat)
    requires i < k <= |slots| && IsKey(slots[i].row)
    ensures Keys(slots, k) != []
  {
    if i < k - 1 {
      KeysNotEmpty(slots, k - 1, i);
    }
  }

  lemma OnlyRootKeys(env: Env, slots: seq<Slot>)
    requires SlotsOk(env, slots)
    ensures Keys(slots, |slots|) == [] <==> |slots| == 1
  {
    if |slots| == 1 {
      assert SlotOk(env, slots, 0);
      assert Keys(slots, 1) == Keys(slots, 0);
    } else {
      FirstNodeIsKey(env, slots);
      KeysNotEmpty(slots, |slots|, 1);
    }
  }

  lemma OnlyRootFlat(env: Env, slots: seq<Slot>, flat: seq<FlatNode>)
    requires ValidEnv(env) && SlotsOk(env, slots) && NoRepeats(flat)
    requires forall n :: n in flat <==> n in Rows(slots)
    ensures |flat| < 2 <==> |slots| == 1
  {
    if |slots| == 1 {
      forall i | 0 <= i < |flat|
        ensures flat[i] == slots[0].row
      {
        assert flat[i] in flat;
      }
      Pigeonhole(flat, {slots[0].row});
    } else {
      assert SlotOk(env, slots, 0) && SlotOk(env, slots, 1);
      assert Rows(slots)[0] in Rows(slots) && Rows(slots)[1] in Rows(slots);
      TwoMembers(flat, slots[0].row, slots[1].row);
    }
  }

  lemma ScanSeesKeys(env: Env, title: string, lines: seq<Line>) returns (slots: seq<Slot>)
    requires ValidEnv(env) && AllWellFormed(lines)
    ensures slots == Run(env, title, lines).slots && SlotsOk(env, slots)
    ensures LocatorKeys(lines) == Keys(slots, |slots|)
  {
    RunInv(env, title, lines);
    RunAgrees(env, title, lines);
    slots := Run(env, title, lines).slots;
  }

  lemma FewNodes(env: Env, title: string, lines: seq<Line>, flat: seq<FlatNode>)
    requires ValidEnv(env) && AllWellFormed(lines) && flat == FlattenAll(TreeOf(Run(env, title, lines).slots))
    ensures RowsDoubted(flat, SuspiciouslyLowNodeCount) <==> LocatorKeys(lines) == []
  {
    var slots := ScanSeesKeys(env, title, lines);
    ParsedShape(env, slots);
    OnlyRootKeys(env, slots);
    OnlyRootFlat(env, slots, flat);
  }

  // ----- Text -----

  ghost predicate NoTexts(slots: seq<Slot>) {
    forall i :: 0 < i < |slots| ==> slots[i].row.text == ""
  }

  /** No line that the parser keeps has any content. */
  ghost predicate NoContent(env: Env, title: string, lines: seq<Line>) {
    forall k :: 0 <= k < |lines| ==> NothingKept(env, title, lines, k)
  }

  ghost predicate NothingKept(env: Env, title: string, lines: seq<Line>, k: nat)
    requires k < |lines|
  {
    Kept(Run(env, title, lines[..k]), lines[k]) ==> Content(lines[k]) == ""
  }

  lemma EnsureNoText(env: Env, slots: seq<Slot>, p: nat, num: string, initial: Option<string>)
    requires InBounds(slots) && p < |slots| && NoTexts(slots) && TextOr(initial) == ""
    ensures NoTexts(EnsureParagraph(env, slots, p, num, initial).0)
    ensures NoTexts(EnsureClause(env, slots, p, num, initial).0)
  {
  }

  lemma AppendNothing(env: Env, slots: seq<Slot>, i: nat)
    requires InBounds(slots) && i < |slots| && NoTexts(slots)
    ensures NoTexts(AppendAt(env, slots, i, ""))
  {
  }

  lemma ParagraphNoText(env: Env, s: State, target: nat, l: Line)
    requires Bounded(s) && target < |s.slots| && NoTexts(s.slots) && l.Qualified? && l.rest == ""
    ensures NoTexts(ParagraphStep(env, s, target, l.para, l.clause, l.sub, "").slots)
  {
    if l.clause.None? {
      EnsureNoText(env, s.slots, target, l.para, Some(""));
      var (slots1, p) := EnsureParagraph(env, s.slots, target, l.para, Some(""));
      AppendNothing(env, slots1, p);
    } else {
      EnsureNoText(env, s.slots, target, l.para, None);
      var (slots1, p) := EnsureParagraph(env, s.slots, target, l.para, None);
      ClauseNoText(env, slots1, target, p, l.clause.value, l.sub);
    }
  }

  /** The part of a paragraph step below the paragraph. */
  lemma ClauseNoText(env: Env, slots: seq<Slot>, target: nat, p: nat, clause: string, sub: Option<string>)
    requires InBounds(slots) && target < |slots| && p < |slots| && NoTexts(slots)
    ensures var (slots2, c) := EnsureClause(env, slots, p, clause, if sub.Some? then None else Some(""));
            NoTexts(if sub.None? then AppendAt(env, slots2, c, "")
                    else Push(slots2, c, SubClauseRow(env, slots2, target, p, c, clause, sub.value, "")))
  {
    var initial := if sub.Some? then None else Some("");
    EnsureNoText(env, slots, p, clause, initial);
    var (slots2, c) := EnsureClause(env, slots, p, clause, initial);
    if sub.None? {
      AppendNothing(env, slots2, c);
    }
  }

  lemma QualifiedNoText(env: Env, s: State, l: Line)
    requires Inv(env, s) && NoTexts(s.slots) && l.Qualified? && l.rest == "" && s.article.Some?
    ensures NoTexts(Step(env, s, l).slots)
  {
    var target := TargetArticle(s, ArticleToken(l.main, l.bis));
    TargetIsArticle(env, s, ArticleToken(l.main, l.bis));
    var simple := if l.clause.None? then FindSimple(s.slots, s.slots[target].children, l.main, s.simple) else None;
    match simple {
      case Some(p) => EnsureNoText(env, s.slots, p, l.para, Some(l.rest));
      case None => ParagraphNoText(env, s, target, l);
    }
  }

  lemma StepNoText(env: Env, s: State, l: Line)
    requires Inv(env, s) && NoTexts(s.slots) && (Kept(s, l) ==> Content(l) == "")
    ensures NoTexts(Step(env, s, l).slots)
  {
    if !Kept(s, l) {
      DroppedLineChangesNothing(env, s, l);
    } else if l.Qualified? {
      QualifiedNoText(env, s, l);
    } else if l.Simple? {
      EnsureNoText(env, s.slots, s.article.value, l.num, Some(l.rest));
    }
  }

  lemma {:induction false} RunNoText(env: Env, title: string, lines: seq<Line>)
    requires ValidEnv(env) && AllWellFormed(lines) && NoContent(env, title, lines)
    ensures NoTexts(Run(env, title, lines).slots)
    decreases |lines|
  {
    if lines != [] {
      var before := lines[..|lines| - 1];
      forall k | 0 <= k < |before|
        ensures NothingKept(env, title, before, k)
      {
        assert before[..k] == lines[..k] && NothingKept(env, title, lines, k);
      }
      RunNoText(env, title, before);
      RunInv(env, title, before);
      assert NothingKept(env, title, lines, |lines| - 1);
      StepNoText(env, Run(env, title, before), lines[|lines| - 1]);
    }
  }

  lemma NotBlank(text: string)
    requires Trimmed(text) && text != ""
    ensures !Blank(text)
  {
  }

  /** The content of a kept line is the text of some row. */
  lemma ContentIsText(env: Env, title: string, lines: seq<Line>, k: nat) returns (n: FlatNode)
    requires ValidEnv(env) && AllWellFormed(lines) && k < |lines|
    requires Kept(Run(env, title, lines[..k]), lines[k]) && Content(lines[k]) != ""
    ensures n in Rows(Run(env, title, lines).slots) && HasText(n)
  {
    var slots := Run(env, title, lines).slots;
    RunInv(env, title, lines[..k]);
    RunInv(env, title, lines);
    RunGrows(env, title, lines, k);
    var j := NoTextLost(env, title, lines, k);
    n := slots[j].row;
    assert Rows(slots)[j] == n && SlotOk(env, slots, j);
    assert n.nodeType != DOCUMENT by {
      if lines[k].Plain? {
        assert SlotGrown(Run(env, title, lines[..k]).slots[j], slots[j]);
      }
    }
    NotBlank(n.text);
  }

  lemma TextVerdict(env: Env, title: string, lines: seq<Line>, flat: seq<FlatNode>)
    requires ValidEnv(env) && AllWellFormed(lines) && flat == FlattenAll(TreeOf(Run(env, title, lines).slots))
    ensures RowsDoubted(flat, EmptyLegalText) <==> NoContent(env, title, lines)
  {
    var slots := Run(env, title, lines).slots;
    RunInv(env, title, lines);
    ParsedMembers(env, slots);
    if NoContent(env, title, lines) {
      RunNoText(env, title, lines);
      forall n | n in flat
        ensures !HasText(n)
      {
        var i :| 0 <= i < |slots| && Rows(slots)[i] == n;
        assert SlotOk(env, slots, i);
      }
    } else {
      var k :| 0 <= k < |lines| && !NothingKept(env, title, lines, k);
      var n := ContentIsText(env, title, lines, k);
    }
  }

  // ----- The verdict -----

  /**
   What the confidence check says about the provisions of a parsed page: none recognized
   exactly when no article heading was read, malformed exactly when one was numbered 0, too few
   nodes exactly when there was no heading at all, and no text exactly when no line that the parser
   kept has any content.
   */
  lemma ConfidenceVerdict(env: Env, title: string, lines: seq<Line>, flat: seq<FlatNode>)
    requires ValidEnv(env) && AllWellFormed(lines) && flat == FlattenAll(TreeOf(Run(env, title, lines).slots))
    ensures RowsDoubted(flat, NoRecognizableProvisions) <==> ScanLines(lines).seen == {}
    ensures RowsDoubted(flat, MalformedNumbering) <==> "0" in ScanLines(lines).seen
    ensures RowsDoubted(flat, SuspiciouslyLowNodeCount) <==> LocatorKeys(lines) == []
    ensures RowsDoubted(flat, EmptyLegalText) <==> NoContent(env, title, lines)
  {
    ArticleVerdict(env, title, lines, flat);
    FewNodes(env, title, lines, flat);
    TextVerdict(env, title, lines, flat);
  }

  /** What is acceptable about the input besides its lines. */
  predicate HeadOk(input: GateInput) {
    |Trim(input.title)| >= 3 && input.title != "Untitled" && Truthy(input.actType) &&
    input.archiveSha == input.bytesSha && !EndsUnsafely(input)
  }

  /** No row is page chrome, and no expectation about a known law is unmet. */
  ghost predicate TextOk(input: GateInput, flat: seq<FlatNode>) {
    (forall n :: n in flat ==> !IsChromeRow(n, input.isChrome)) && input.lawReasons(flat) == []
  }

  /** The lines name no locator twice, some article, none numbered 0, and have some content. */
  ghost predicate LinesOk(env: Env, title: string, lines: seq<Line>) {
    NoRepeats(LocatorKeys(lines)) && ScanLines(lines).seen != {} && "0" !in ScanLines(lines).seen &&
    !NoContent(env, title, lines)
  }

  /** A reason that is not about the shape of the tree. */
  lemma OtherReasons(input: GateInput, flat: seq<FlatNode>, r: Reason)
    requires input.version.Some? && flat == FlattenAll(input.version.value.tree) && !Structural(r)
    ensures Raised(input, r) ==>
              !HeadOk(input) || !TextOk(input, flat) || RowsDoubted(flat, NoRecognizableProvisions) ||
              RowsDoubted(flat, SuspiciouslyLowNodeCount) || RowsDoubted(flat, MalformedNumbering) ||
              RowsDoubted(flat, EmptyLegalText)
  {
  }

  lemma HeadRaises(input: GateInput)
    requires input.version.Some? && !HeadOk(input)
    ensures exists r :: Raised(input, r)
  {
    assert Raised(input, MissingTitle) || Raised(input, MissingActType) || Raised(input, ArchiveHashMismatch) ||
      Raised(input, UnsafeEffectiveTo);
  }

  lemma TextRaises(input: GateInput, flat: seq<FlatNode>)
    requires input.version.Some? && flat == FlattenAll(input.version.value.tree) && !TextOk(input, flat)
    ensures exists r :: Raised(input, r)
  {
    if input.lawReasons(flat) != [] {
      var code := input.lawReasons(flat)[0];
      assert code in input.lawReasons(flat) && LawReason(code) in LawReasons(input.lawReasons(flat));
      assert Raised(input, LawReason(code));
    } else {
      assert AtFault(flat, input.isChrome, ChromeOrTocNode);
      assert Raised(input, ChromeOrTocNode);
    }
  }

  lemma DoubtRaises(input: GateInput, flat: seq<FlatNode>, r: Reason)
    requires input.version.Some? && flat == FlattenAll(input.version.value.tree) && RowsDoubted(flat, r)
    ensures Raised(input, r)
  {
    assert Doubted(input, r);
  }

  /** The whole gate lets a parsed page through exactly when its head, its texts and its lines are all right. */
  lemma GatePasses(env: Env, title: string, lines: seq<Line>, input: GateInput, flat: seq<FlatNode>)
    requires ValidEnv(env) && AllWellFormed(lines) && input.version.Some?
    requires input.version.value.tree == TreeOf(Run(env, title, lines).slots)
    requires flat == FlattenAll(input.version.value.tree)
    ensures (forall r :: !Raised(input, r)) <==>
              HeadOk(input) && TextOk(input, flat) && LinesOk(env, title, lines)
  {
    GateVerdict(env, title, lines, input);
    ConfidenceVerdict(env, title, lines, flat);
    if !HeadOk(input) {
      HeadRaises(input);
    } else if !TextOk(input, flat) {
      TextRaises(input, flat);
    } else if !LinesOk(env, title, lines) {
      LinesRaise(env, title, lines, input, flat);
    } else {
      assert ScanLines(lines).seen != {} ==> LocatorKeys(lines) != [] by {
        SeenHasKeys(lines);
      }
      forall r
        ensures !Raised(input, r)
      {
        if !Structural(r) {
          OtherReasons(input, flat, r);
        }
      }
    }
  }

  lemma {:induction false} SeenHasKeys(lines: seq<Line>)
    ensures ScanLines(lines).seen != {} ==> LocatorKeys(lines) != []
    decreases |lines|
  {
    if lines != [] {
      SeenHasKeys(lines[..|lines| - 1]);
    }
  }

  lemma LinesRaise(env: Env, title: string, lines: seq<Line>, input: GateInput, flat: seq<FlatNode>)
    requires ValidEnv(env) && AllWellFormed(lines) && input.version.Some?
    requires input.version.value.tree == TreeOf(Run(env, title, lines).slots)
    requires flat == FlattenAll(input.version.value.tree) && !LinesOk(env, title, lines)
    ensures exists r :: Raised(input, r)
  {
    ConfidenceVerdict(env, title, lines, flat);
    if !NoRepeats(LocatorKeys(lines)) {
      GateVerdict(env, title, lines, input);
      assert Raised(input, DuplicateLocators);
    } else if ScanLines(lines).seen == {} {
      DoubtRaises(input, flat, NoRecognizableProvisions);
    } else if "0" in ScanLines(lines).seen {
      DoubtRaises(input, flat, MalformedNumbering);
    } else {
      DoubtRaises(input, flat, EmptyLegalText);
    }
  }
}
