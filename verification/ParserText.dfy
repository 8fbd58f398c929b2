/**
 No legal text is lost: what a line says is included, for good, in the text of the node
 that its numbers or the cursors select.
 */
module ParserText {
  import opened Prelude
  import opened LegalNodes
  import opened LocatorGrammar
  import opened ParserModel
  import opened ParserInvariants
  import opened ParserLocators
  import opened ParserReadings

  // ----- Text only grows by suffix -----

  ghost predicate RowGrown(a: FlatNode, b: FlatNode) {
    a.text <= b.text && b == a.(text := b.text, contentHash := b.contentHash)
  }

  /** The node stays where it was pushed. */
  ghost predicate SlotGrown(a: Slot, b: Slot) {
    RowGrown(a.row, b.row) && a.parent == b.parent
  }

  ghost predicate Grown(a: seq<Slot>, b: seq<Slot>) {
    |a| <= |b| && forall i :: 0 <= i < |a| ==> SlotGrown(a[i], b[i])
  }

  lemma GrownTrans(a: seq<Slot>, b: seq<Slot>, c: seq<Slot>)
    requires Grown(a, b) && Grown(b, c)
    ensures Grown(a, c)
  {
    forall i | 0 <= i < |a|
      ensures SlotGrown(a[i], c[i])
    {
      assert SlotGrown(a[i], b[i]) && SlotGrown(b[i], c[i]);
    }
  }

  lemma PushGrown(slots: seq<Slot>, p: nat, row: FlatNode)
    requires InBounds(slots) && p < |slots|
    ensures Grown(slots, Push(slots, p, row)) && Push(slots, p, row)[|slots|].row == row
  {
    forall i | 0 <= i < |slots|
      ensures SlotGrown(slots[i], Push(slots, p, row)[i])
    {
    }
  }

  lemma AppendGrown(env: Env, slots: seq<Slot>, i: nat, line: string)
    requires SlotsOk(env, slots) && InBounds(slots) && 0 < i < |slots| && Trimmed(line)
    ensures var r := AppendAt(env, slots, i, line);
            Grown(slots, r) && Includes(r[i].row.text, line)
  {
    var r := AppendAt(env, slots, i, line);
    assert SlotOk(env, slots, i);
    AppendTextMeaning(env, slots[i].row, line);
    forall j | 0 <= j < |slots|
      ensures SlotGrown(slots[j], r[j])
    {
    }
  }

  lemma EnsureGrown(env: Env, slots: seq<Slot>, p: nat, num: string, initial: Option<string>)
    requires InBounds(slots) && p < |slots|
    ensures Grown(slots, EnsureParagraph(env, slots, p, num, initial).0)
    ensures Grown(slots, EnsureClause(env, slots, p, num, initial).0)
  {
    PushGrown(slots, p, ParagraphRow(env, slots, p, num, TextOr(initial)));
    PushGrown(slots, p, ClauseRow(env, slots, p, num, TextOr(initial)));
  }

  // ----- Where a line lands -----

  /** The parser keeps a line when it is a heading or when an article is open. */
  predicate Kept(s: State, l: Line) {
    match l
    case Chrome => false
    case Chapter(_, _, _) => true
    case ArticleWord(_, _, _) => true
    case ArticleNumber(_, _, _, _) => true
    case Annex(_) => true
    case _ => s.article.Some?
  }

  /** The legal text of a line: all of it, or what follows its number. */
  function Content(l: Line): (r: string) {
    match l
    case Chrome => ""
    case Chapter(line, _, _) => line
    case ArticleWord(line, _, _) => line
    case ArticleNumber(line, _, _, _) => line
    case Annex(line) => line
    case Qualified(_, _, _, _, _, _, rest) => rest
    case Simple(_, _, rest) => rest
    case Plain(line) => line
  }

  /**
   What the earlier lines say about a line: its article's token, its reading, the next annex
   locator, and which article, counted in the order of the headings, it belongs to.
   */
  datatype Expected = Expected(article: Option<string>, asClause: bool, annex: string, home: Option<nat>)

  /** Computed from scans of the earlier lines, without the tree. */
  function Expect(sc: Scan, rd: Readings, l: Line): (x: Expected)
    requires Sound(rd)
  {
    Expected(ScanStep(sc, l).current, ReadsAsClause(rd, l), Spell(AnnexPath(NatToString(sc.rootKids + 1))),
             ReadStep(rd, l).open)
  }

  /** The row is the kind of row that the numbers of the line, or the cursors, stand for. */
  predicate Selects(s: State, l: Line, x: Expected, index: nat, row: FlatNode) {
    var t := x.article;
    match l
    case Chrome => false
    case Chapter(_, value, bis) => row.nodeType == CHAPTER && row.chapter == Some(ArticleToken(NatToString(value), bis))
    case ArticleWord(_, _, _) => row.nodeType == ARTICLE && row.article == t
    case ArticleNumber(_, _, _, _) => row.nodeType == ARTICLE && row.article == t
    case Annex(_) => row.nodeType == ANNEX && row.sourceLocator == x.annex
    case Qualified(_, main, _, para, clause, sub, _) =>
      row.article == t &&
      if x.asClause then
        row.nodeType == CLAUSE && row.paragraph == Some(main) && row.clause == Some(para)
      else if clause.None? then
        row.nodeType == PARAGRAPH && row.paragraph == Some(para)
      else if sub.None? then
        row.nodeType == CLAUSE && row.paragraph == Some(para) && row.clause == clause
      else
        row.nodeType == SUB_CLAUSE && row.paragraph == Some(para) && row.clause == clause && row.subClause == sub
    case Simple(_, num, _) => row.nodeType == PARAGRAPH && row.article == t && row.paragraph == Some(num)
    case Plain(_) =>
      Some(index) == if s.clause.Some? then s.clause else if s.paragraph.Some? then s.paragraph else s.article
  }

  /** The row is selected by the numbers and includes the text. */
  ghost predicate LandsOn(s: State, l: Line, r: State, x: Expected, j: nat) {
    j < |r.slots| && Selects(s, l, x, j, r.slots[j].row) && Includes(r.slots[j].row.text, Content(l))
  }

  /** Node `a` is node `j` or one of the nodes above it. */
  predicate Within(slots: seq<Slot>, j: nat, a: nat)
    requires j < |slots|
    decreases j
  {
    j == a || (slots[j].parent < j && Within(slots, slots[j].parent, a))
  }

  /** Node `j` lies in the article with this number in the order of the article headings. */
  ghost predicate AtHome(slots: seq<Slot>, home: Option<nat>, j: nat)
    requires j < |slots|
  {
    home.Some? && home.value < |Articles(slots, |slots|)| && Within(slots, j, Articles(slots, |slots|)[home.value])
  }

  predicate OfArticle(l: Line) {
    !l.Chrome? && !l.Chapter? && !l.Annex?
  }

  /** And it is a row of the expected article, also when another article has the same number. */
  ghost predicate LandsAt(s: State, l: Line, r: State, x: Expected, j: nat) {
    LandsOn(s, l, r, x, j) && (OfArticle(l) ==> AtHome(r.slots, x.home, j))
  }

  /** A line that names a sub-clause. */
  predicate NamesSubClause(l: Line) {
    l.Qualified? && l.clause.Some? && l.sub.Some?
  }

  function Innermost(r: State): (c: Option<nat>) {
    if r.clause.Some? then r.clause else if r.paragraph.Some? then r.paragraph else r.article
  }

  /** The innermost open node, or the sub-clause just pushed under the open clause. */
  predicate AtCursor(r: State, l: Line, j: nat) {
    j < |r.slots| &&
    if NamesSubClause(l) then j == |r.slots| - 1 && r.clause.Some? && r.slots[j].parent == r.clause.value < j
    else Some(j) == Innermost(r)
  }

  /** The node that a line adds its content to. */
  function Landing(env: Env, s: State, l: Line): (j: Option<nat>)
    requires Bounded(s)
  {
    if !Kept(s, l) then None
    else if l.Chapter? || l.Annex? then Some(|s.slots|)
    else
      var r := Step(env, s, l);
      if NamesSubClause(l) then Some(|r.slots| - 1) else Innermost(r)
  }

  lemma LandingIs(env: Env, s: State, l: Line, j: nat)
    requires Bounded(s) && Kept(s, l)
    requires if OfArticle(l) then AtCursor(Step(env, s, l), l, j) else j == |s.slots|
    ensures Landing(env, s, l) == Some(j)
  {
  }

  lemma CursorWithin(env: Env, r: State, l: Line, j: nat)
    requires Inv(env, r) && AtCursor(r, l, j) && r.article.Some?
    ensures Within(r.slots, j, r.article.value)
  {
    if r.clause.Some? {
      assert SlotOk(env, r.slots, r.clause.value);
      assert Within(r.slots, r.paragraph.value, r.article.value) by {
        assert SlotOk(env, r.slots, r.paragraph.value);
      }
      assert Within(r.slots, r.clause.value, r.article.value);
    } else if r.paragraph.Some? {
      assert SlotOk(env, r.slots, r.paragraph.value);
    }
  }

  lemma {:induction false} WithinGrows(a: seq<Slot>, b: seq<Slot>, j: nat, n: nat)
    requires Grown(a, b) && j < |a| && Within(a, j, n)
    ensures Within(b, j, n)
    decreases j
  {
    assert SlotGrown(a[j], b[j]);
    if j != n {
      WithinGrows(a, b, a[j].parent, n);
    }
  }

  lemma {:induction false} ArticlesGrow(a: seq<Slot>, b: seq<Slot>, k: nat)
    requires Grown(a, b) && k <= |a|
    ensures Articles(b, k) == Articles(a, k)
  {
    if k > 0 {
      assert SlotGrown(a[k - 1], b[k - 1]);
      ArticlesGrow(a, b, k - 1);
    }
  }

  lemma {:induction false} ArticlesPrefix(slots: seq<Slot>, k: nat, n: nat)
    requires k <= n <= |slots|
    ensures Articles(slots, k) <= Articles(slots, n)
    decreases n
  {
    if k < n {
      ArticlesPrefix(slots, k, n - 1);
    }
  }

  lemma HomeStays(a: seq<Slot>, b: seq<Slot>, home: Option<nat>, j: nat)
    requires Grown(a, b) && j < |a| && AtHome(a, home, j)
    ensures AtHome(b, home, j)
  {
    ArticlesGrow(a, b, |a|);
    ArticlesPrefix(b, |a|, |b|);
    WithinGrows(a, b, j, Articles(a, |a|)[home.value]);
  }

  lemma NewNodeLands(slots: seq<Slot>, p: nat, row: FlatNode, text: string)
    requires InBounds(slots) && p < |slots| && row.text == text
    ensures Grown(slots, Push(slots, p, row))
    ensures Includes(Push(slots, p, row)[|slots|].row.text, text)
  {
    PushGrown(slots, p, row);
  }

  lemma SimpleClauseLands(env: Env, s: State, l: Line, x: Expected, target: nat, p: nat) returns (j: nat)
    requires x.asClause && target < |s.slots| && x.article == s.slots[target].row.article
    requires Inv(env, s) && WellFormed(l) && l.Qualified? && l.clause.None?
    requires 0 < target < |s.slots| && 0 < p < |s.slots| && s.slots[p].row.nodeType == PARAGRAPH
    requires s.slots[p].parent == target && s.slots[p].row.paragraph == Some(l.main)
    requires s.slots[p].row.article == s.slots[target].row.article
    ensures var r := SimpleClauseStep(env, s, target, p, l.para, l.rest);
            Grown(s.slots, r.slots) && LandsOn(s, l, r, x, j) && AtCursor(r, l, j)
  {
    EnsureClauseOk(env, s.slots, p, l.para, Some(l.rest));
    EnsureGrown(env, s.slots, p, l.para, Some(l.rest));
    var (slots, c) := EnsureClause(env, s.slots, p, l.para, Some(l.rest));
    AppendGrown(env, slots, c, l.rest);
    var r := SimpleClauseStep(env, s, target, p, l.para, l.rest);
    GrownTrans(s.slots, slots, r.slots);
    assert SlotGrown(slots[c], r.slots[c]);
    j := c;
  }

  lemma ParagraphAloneLands(env: Env, s: State, l: Line, x: Expected, target: nat) returns (j: nat)
    requires !x.asClause && target < |s.slots| && x.article == s.slots[target].row.article
    requires Inv(env, s) && WellFormed(l) && l.Qualified? && l.clause.None?
    requires 0 < target < |s.slots| && s.slots[target].row.nodeType == ARTICLE
    ensures var r := ParagraphStep(env, s, target, l.para, None, l.sub, l.rest);
            Grown(s.slots, r.slots) && LandsOn(s, l, r, x, j) && AtCursor(r, l, j)
  {
    EnsureParagraphOk(env, s.slots, target, l.para, Some(l.rest));
    EnsureGrown(env, s.slots, target, l.para, Some(l.rest));
    var (slots1, p) := EnsureParagraph(env, s.slots, target, l.para, Some(l.rest));
    AppendGrown(env, slots1, p, l.rest);
    var after := AppendAt(env, slots1, p, l.rest);
    GrownTrans(s.slots, slots1, after);
    assert SlotGrown(slots1[p], after[p]);
    j := p;
  }

  lemma ClauseLineLands(env: Env, s: State, l: Line, x: Expected, target: nat) returns (j: nat)
    requires !x.asClause && target < |s.slots| && x.article == s.slots[target].row.article
    requires Inv(env, s) && WellFormed(l) && l.Qualified? && l.clause.Some?
    requires 0 < target < |s.slots| && s.slots[target].row.nodeType == ARTICLE
    ensures var r := ParagraphStep(env, s, target, l.para, l.clause, l.sub, l.rest);
            Grown(s.slots, r.slots) && LandsOn(s, l, r, x, j) && AtCursor(r, l, j)
  {
    EnsureParagraphOk(env, s.slots, target, l.para, None);
    EnsureGrown(env, s.slots, target, l.para, None);
    EnsureParagraphFrame(env, s.slots, target, l.para, None);
    var (slots1, p) := EnsureParagraph(env, s.slots, target, l.para, None);
    var r := ParagraphStep(env, s, target, l.para, l.clause, l.sub, l.rest);
    j := BelowParagraphLands(env, s, l, x, slots1, target, p, r.slots);
    GrownTrans(s.slots, slots1, r.slots);
  }

  lemma ParagraphLands(env: Env, s: State, l: Line, x: Expected, target: nat) returns (j: nat)
    requires !x.asClause && target < |s.slots| && x.article == s.slots[target].row.article
    requires Inv(env, s) && WellFormed(l) && l.Qualified?
    requires 0 < target < |s.slots| && s.slots[target].row.nodeType == ARTICLE
    ensures var r := ParagraphStep(env, s, target, l.para, l.clause, l.sub, l.rest);
            Grown(s.slots, r.slots) && LandsOn(s, l, r, x, j) && AtCursor(r, l, j)
  {
    if l.clause.None? {
      j := ParagraphAloneLands(env, s, l, x, target);
    } else {
      j := ClauseLineLands(env, s, l, x, target);
    }
  }

  lemma BelowParagraphLands(env: Env, s: State, l: Line, x: Expected, slots: seq<Slot>, a: nat, p: nat,
                            after: seq<Slot>)
    returns (j: nat)
    requires !x.asClause && p < |slots| && x.article == slots[p].row.article
    requires SlotsOk(env, slots) && InBounds(slots) && 0 < p < |slots| && slots[p].row.nodeType == PARAGRAPH
    requires WellFormed(l) && l.Qualified? && l.clause.Some?
    requires a < |slots| && slots[p].parent == a && slots[p].row.paragraph == Some(l.para)
    requires slots[a].row.article == slots[p].row.article
    requires var initial := if l.sub.Some? then None else Some(l.rest);
             var (r, c) := EnsureClause(env, slots, p, l.clause.value, initial);
             after == if l.sub.None? then AppendAt(env, r, c, l.rest)
                      else Push(r, c, SubClauseRow(env, r, a, p, c, l.clause.value, l.sub.value, l.rest))
    ensures Grown(slots, after)
    ensures j < |after| && Selects(s, l, x, j, after[j].row) && Includes(after[j].row.text, l.rest)
    ensures var c := EnsureClause(env, slots, p, l.clause.value, if l.sub.Some? then None else Some(l.rest)).1;
            if l.sub.None? then j == c else j == |after| - 1 && after[j].parent == c < j
  {
    var initial := if l.sub.Some? then None else Some(l.rest);
    EnsureClauseOk(env, slots, p, l.clause.value, initial);
    EnsureGrown(env, slots, p, l.clause.value, initial);
    EnsureClauseFrame(env, slots, p, l.clause.value, initial);
    var (r, c) := EnsureClause(env, slots, p, l.clause.value, initial);
    if l.sub.None? {
      AppendGrown(env, r, c, l.rest);
      assert SlotGrown(r[c], after[c]);
      j := c;
    } else {
      var row := SubClauseRow(env, r, a, p, c, l.clause.value, l.sub.value, l.rest);
      NewNodeLands(r, c, row, l.rest);
      j := |r|;
    }
    GrownTrans(slots, r, after);
  }

  lemma QualifiedLands(env: Env, s: State, rd: Readings, l: Line, x: Expected) returns (j: nat)
    requires Inv(env, s) && Follows(s, rd) && Sound(rd) && WellFormed(l) && l.Qualified? && s.article.Some?
    requires x.article == s.slots[TargetArticle(s, ArticleToken(l.main, l.bis))].row.article &&
             x.asClause == ReadsAsClause(rd, l)
    ensures Grown(s.slots, Step(env, s, l).slots) && LandsOn(s, l, Step(env, s, l), x, j) &&
            AtCursor(Step(env, s, l), l, j)
  {
    var token := ArticleToken(l.main, l.bis);
    var target := TargetArticle(s, token);
    TargetIsArticle(env, s, token);
    ReadingPredicted(env, s, rd, l);
    var simple := if l.clause.None? then FindSimple(s.slots, s.slots[target].children, l.main, s.simple) else None;
    if simple.Some? {
      ChildFacts(env, s.slots, target, simple.value);
      j := SimpleClauseLands(env, s, l, x, target, simple.value);
    } else {
      j := ParagraphLands(env, s, l, x, target);
    }
  }

  lemma SimpleLands(env: Env, s: State, l: Line, x: Expected) returns (j: nat)
    requires Inv(env, s) && WellFormed(l) && l.Simple? && s.article.Some?
    requires x.article == s.slots[s.article.value].row.article
    ensures Grown(s.slots, Step(env, s, l).slots)
    ensures LandsOn(s, l, Step(env, s, l), x, j) && AtCursor(Step(env, s, l), l, j)
  {
    var a := s.article.value;
    EnsureParagraphOk(env, s.slots, a, l.num, Some(l.rest));
    EnsureGrown(env, s.slots, a, l.num, Some(l.rest));
    var (slots, p) := EnsureParagraph(env, s.slots, a, l.num, Some(l.rest));
    AppendGrown(env, slots, p, l.rest);
    var r := Step(env, s, l);
    GrownTrans(s.slots, slots, r.slots);
    assert SlotGrown(slots[p], r.slots[p]);
    j := p;
  }

  lemma TextLands(env: Env, s: State, line: string) returns (j: nat)
    requires Inv(env, s) && Trimmed(line)
    ensures Grown(s.slots, TextStep(env, s, line).slots)
    ensures s.article.Some? ==> AtCursor(TextStep(env, s, line), Plain(line), j)
    ensures s.article.Some? ==> forall x :: LandsOn(s, Plain(line), TextStep(env, s, line), x, j)
  {
    j := 0;
    if s.article.Some? {
      var i := if s.clause.Some? then s.clause.value
               else if s.paragraph.Some? then s.paragraph.value else s.article.value;
      AppendGrown(env, s.slots, i, line);
      j := i;
    } else {
      GrownRefl(s.slots);
    }
  }

  lemma GrownRefl(a: seq<Slot>)
    ensures Grown(a, a)
  {
    assert forall i :: 0 <= i < |a| ==> SlotGrown(a[i], a[i]);
  }

  lemma HeadingLands(env: Env, s: State, l: Line, p: nat, row: FlatNode, x: Expected)
    requires Inv(env, s) && p < |s.slots| && Step(env, s, l).slots == Push(s.slots, p, row)
    requires row.text == Content(l) && Selects(s, l, x, |s.slots|, row)
    ensures Grown(s.slots, Step(env, s, l).slots) && LandsOn(s, l, Step(env, s, l), x, |s.slots|)
  {
    NewNodeLands(s.slots, p, row, Content(l));
    PushGrown(s.slots, p, row);
  }

  /** A heading makes a node of its own. */
  lemma HeadingStepLands(env: Env, s: State, sc: Scan, rd: Readings, l: Line)
    requires Inv(env, s) && Agrees(s, sc) && Sound(rd) && WellFormed(l)
    requires l.Chapter? || l.ArticleWord? || l.ArticleNumber? || l.Annex?
    ensures Grown(s.slots, Step(env, s, l).slots)
    ensures LandsOn(s, l, Step(env, s, l), Expect(sc, rd, l), |s.slots|)
    ensures OfArticle(l) ==> AtCursor(Step(env, s, l), l, |s.slots|) && Step(env, s, l).article.Some?
  {
    var x := Expect(sc, rd, l);
    match l {
      case Chapter(line, value, bis) =>
        HeadingLands(env, s, l, 0, ChapterRow(env, s.slots, ArticleToken(NatToString(value), bis), line), x);
      case ArticleWord(line, value, title) =>
        HeadingLands(env, s, l, ArticleParent(s), ArticleRow(env, s, NatToString(value), title, line), x);
      case ArticleNumber(line, main, bis, title) =>
        HeadingLands(env, s, l, ArticleParent(s), ArticleRow(env, s, ArticleToken(main, bis), title, line), x);
      case Annex(line) =>
        HeadingLands(env, s, l, ArticleParent(s), AnnexRow(env, s, line), x);
    }
  }

  /** A line inside an article lands at the cursor that it leaves. */
  lemma BodyStepLands(env: Env, s: State, sc: Scan, rd: Readings, l: Line) returns (j: nat)
    requires Inv(env, s) && Agrees(s, sc) && Follows(s, rd) && Sound(rd) && WellFormed(l)
    requires (l.Qualified? || l.Simple? || l.Plain?) && s.article.Some?
    ensures Grown(s.slots, Step(env, s, l).slots)
    ensures LandsOn(s, l, Step(env, s, l), Expect(sc, rd, l), j)
    ensures AtCursor(Step(env, s, l), l, j) && Step(env, s, l).article.Some?
  {
    var x := ExpectInArticle(env, s, sc, rd, l);
    match l {
      case Qualified(_, _, _, _, _, _, _) => j := QualifiedLands(env, s, rd, l, x);
      case Simple(_, _, _) => j := SimpleLands(env, s, l, x);
      case Plain(line) => j := TextLands(env, s, line);
    }
  }

  /** The expected article is the one that the line goes to. */
  lemma ExpectInArticle(env: Env, s: State, sc: Scan, rd: Readings, l: Line) returns (x: Expected)
    requires Inv(env, s) && Agrees(s, sc) && Follows(s, rd) && Sound(rd) && WellFormed(l) && s.article.Some?
    ensures x == Expect(sc, rd, l) && x.asClause == ReadsAsClause(rd, l)
    ensures l.Qualified? ==> TargetArticle(s, ArticleToken(l.main, l.bis)) < |s.slots|
    ensures l.Qualified? ==> x.article == s.slots[TargetArticle(s, ArticleToken(l.main, l.bis))].row.article
    ensures l.Simple? ==> x.article == s.slots[s.article.value].row.article
  {
    x := Expect(sc, rd, l);
    CurrentIsSome(env, s, sc);
    if l.Qualified? {
      TargetToken(env, s, ArticleToken(l.main, l.bis));
      TargetIsArticle(env, s, ArticleToken(l.main, l.bis));
    }
  }

  /** One step: old texts only grow, and a kept line lands on a row that its numbers select. */
  lemma StepLandsOn(env: Env, s: State, sc: Scan, rd: Readings, l: Line) returns (j: nat)
    requires Inv(env, s) && Agrees(s, sc) && Follows(s, rd) && Sound(rd) && WellFormed(l)
    ensures Grown(s.slots, Step(env, s, l).slots)
    ensures Kept(s, l) ==> LandsOn(s, l, Step(env, s, l), Expect(sc, rd, l), j)
    ensures Kept(s, l) && OfArticle(l) ==> AtCursor(Step(env, s, l), l, j) && Step(env, s, l).article.Some?
    ensures Kept(s, l) && !OfArticle(l) ==> j == |s.slots|
  {
    j := |s.slots|;
    if !Kept(s, l) {
      DroppedLineChangesNothing(env, s, l);
      GrownRefl(s.slots);
    } else if l.Qualified? || l.Simple? || l.Plain? {
      j := BodyStepLands(env, s, sc, rd, l);
    } else {
      HeadingStepLands(env, s, sc, rd, l);
    }
  }

  /** One step: old texts only grow, and a kept line lands in its article, on a row that its numbers select. */
  lemma StepLands(env: Env, s: State, sc: Scan, rd: Readings, l: Line) returns (j: nat)
    requires Inv(env, s) && Agrees(s, sc) && Follows(s, rd) && Sound(rd) && WellFormed(l)
    ensures Grown(s.slots, Step(env, s, l).slots)
    ensures Kept(s, l) ==> Landing(env, s, l) == Some(j) && LandsAt(s, l, Step(env, s, l), Expect(sc, rd, l), j)
  {
    j := StepLandsOn(env, s, sc, rd, l);
    if Kept(s, l) {
      LandingIs(env, s, l, j);
    }
    if Kept(s, l) && OfArticle(l) {
      StepKeepsInv(env, s, l);
      StepFollows(env, s, rd, l);
      CursorWithin(env, Step(env, s, l), l, j);
    }
  }

  /** A line that is not kept changes nothing. */
  lemma DroppedLineChangesNothing(env: Env, s: State, l: Line)
    requires Inv(env, s) && !Kept(s, l)
    ensures Step(env, s, l) == s
  {
  }

  lemma {:induction false} RunGrows(env: Env, title: string, lines: seq<Line>, k: nat)
    requires ValidEnv(env) && AllWellFormed(lines) && k <= |lines|
    ensures Grown(Run(env, title, lines[..k]).slots, Run(env, title, lines).slots)
    decreases |lines|
  {
    if k == |lines| {
      assert lines[..k] == lines;
      GrownRefl(Run(env, title, lines).slots);
    } else {
      var before := lines[..|lines| - 1];
      assert before[..k] == lines[..k];
      RunGrows(env, title, before, k);
      RunInv(env, title, before);
      RunAgrees(env, title, before);
      RunFollows(env, title, before);
      var _ := StepLands(env, Run(env, title, before), ScanLines(before), ReadLines(before), lines[|lines| - 1]);
      GrownTrans(Run(env, title, lines[..k]).slots, Run(env, title, before).slots, Run(env, title, lines).slots);
    }
  }

  /**
   The text of every heading, and of every other line read while an article is open, is
   included in the final text of a node that stands for the numbers of the line: for N.M the
   reading that the earlier lines decide, for an annex the next annex locator.
   */
  lemma NoTextLost(env: Env, title: string, lines: seq<Line>, k: nat) returns (j: nat)
    requires ValidEnv(env) && AllWellFormed(lines) && k < |lines|
    requires Kept(Run(env, title, lines[..k]), lines[k])
    ensures Landing(env, Run(env, title, lines[..k]), lines[k]) == Some(j)
    ensures LandsAt(Run(env, title, lines[..k]), lines[k], Run(env, title, lines),
                    Expect(ScanLines(lines[..k]), ReadLines(lines[..k]), lines[k]), j)
  {
    var before := Run(env, title, lines[..k]);
    var l := lines[k];
    assert lines[..k + 1][..k] == lines[..k] && lines[..k + 1][k] == l;
    var after := Run(env, title, lines[..k + 1]);
    assert after == Step(env, before, l);
    RunInv(env, title, lines[..k]);
    RunAgrees(env, title, lines[..k]);
    RunFollows(env, title, lines[..k]);
    j := StepLands(env, before, ScanLines(lines[..k]), ReadLines(lines[..k]), l);
    RunGrows(env, title, lines, k + 1);
    LandedStays(before, l, after, Run(env, title, lines), Expect(ScanLines(lines[..k]), ReadLines(lines[..k]), l), j);
  }

  lemma LandedStays(before: State, l: Line, after: State, final: State, x: Expected, j: nat)
    requires LandsAt(before, l, after, x, j) && Grown(after.slots, final.slots)
    ensures LandsAt(before, l, final, x, j)
  {
    assert SlotGrown(after.slots[j], final.slots[j]);
    IncludesPrefix(after.slots[j].row.text, final.slots[j].row.text, Content(l));
    if OfArticle(l) {
      HomeStays(after.slots, final.slots, x.home, j);
    }
  }

  // ----- Dropped lines -----

  /** The lines the parser keeps, in order; whether a line is kept depends on the lines before it. */
  function KeptLines(env: Env, title: string, lines: seq<Line>): (r: seq<Line>)
    decreases |lines|
  {
    if lines == [] then []
    else
      var before, last := lines[..|lines| - 1], lines[|lines| - 1];
      KeptLines(env, title, before) + if Kept(Run(env, title, before), last) then [last] else []
  }

  /** Chrome, and text before the first article of a part, can be cut out beforehand without any effect. */
  lemma {:induction false} DroppedLinesDoNotMatter(env: Env, title: string, lines: seq<Line>)
    requires ValidEnv(env) && AllWellFormed(lines)
    ensures Run(env, title, KeptLines(env, title, lines)) == Run(env, title, lines)
    decreases |lines|
  {
    if lines != [] {
      var before, last := lines[..|lines| - 1], lines[|lines| - 1];
      DroppedLinesDoNotMatter(env, title, before);
      RunInv(env, title, before);
      var kept := KeptLines(env, title, before);
      assert (kept + [last])[..|kept|] == kept;
      if !Kept(Run(env, title, before), last) {
        DroppedLineChangesNothing(env, Run(env, title, before), last);
        assert kept + [] == kept;
      }
    }
  }
}
