/**
 What holds of the parse state after every prefix of every sequence of lines: the shape of
 the tree, the spelling of every locator, the content hashes, and the chain of cursors.
 */
module ParserInvariants {
  import opened Prelude
  import opened LegalNodes
  import opened LocatorGrammar
  import opened ParserModel

  /** The slots among the first `k` that were pushed under slot `p`, in creation order. */
  function PushedUnder(slots: seq<Slot>, k: nat, p: nat): (r: seq<nat>)
    requires k <= |slots|
  {
    if k <= 1 then []
    else PushedUnder(slots, k - 1, p) + if slots[k - 1].parent == p then [k - 1] else []
  }

  /** The row's type, numbers and locator fit the row it is pushed under. */
  ghost predicate Fits(up: FlatNode, row: FlatNode, rootKids: nat) {
    match row.nodeType
    case CHAPTER =>
      up.nodeType == DOCUMENT && row.chapter.Some? && ValidPath(ChapterPath(row.chapter.value)) &&
      row.chapter.value[0] != '0' && row.number == row.chapter &&
      row.sourceLocator == Spell(ChapterPath(row.chapter.value))
    case ARTICLE =>
      (up.nodeType == DOCUMENT || up.nodeType == CHAPTER) && row.chapter == up.chapter &&
      row.article.Some? && row.number == row.article && ValidPath(ArticlePath(row.article.value)) &&
      Truthy(row.title) &&
      row.sourceLocator == Spell(ArticlePath(row.article.value))
    case ANNEX =>
      (up.nodeType == DOCUMENT || up.nodeType == CHAPTER) && row.chapter.None? && row.number.None? &&
      row.sourceLocator == Spell(AnnexPath(NatToString(rootKids + 1)))
    case PARAGRAPH =>
      up.nodeType == ARTICLE && row.article == up.article && row.chapter.None? &&
      row.article.Some? && row.paragraph.Some? && row.clause.None? && row.subClause.None? &&
      row.number == row.paragraph && row.title.None? &&
      ValidPath(ParagraphPath(row.article.value, row.paragraph.value)) &&
      row.sourceLocator == Spell(ParagraphPath(row.article.value, row.paragraph.value))
    case CLAUSE =>
      up.nodeType == PARAGRAPH && row.article == up.article && row.paragraph == up.paragraph && row.chapter.None? &&
      row.article.Some? && row.paragraph.Some? && row.clause.Some? && row.subClause.None? &&
      row.number == row.clause && row.title.None? &&
      ValidPath(ClausePath(row.article.value, row.paragraph.value, row.clause.value)) &&
      row.sourceLocator == Spell(ClausePath(row.article.value, row.paragraph.value, row.clause.value))
    case SUB_CLAUSE =>
      up.nodeType == CLAUSE && row.article == up.article && row.paragraph == up.paragraph && row.clause == up.clause &&
      row.chapter.None? &&
      row.article.Some? && row.paragraph.Some? && row.clause.Some? && row.subClause.Some? &&
      row.number == row.subClause && row.title.None? &&
      ValidPath(SubClausePath(row.article.value, row.paragraph.value, row.clause.value, row.subClause.value)) &&
      row.sourceLocator ==
      Spell(SubClausePath(row.article.value, row.paragraph.value, row.clause.value, row.subClause.value))
    case _ => false
  }

  /** Slot `i` on its own and against its parent. */
  ghost predicate SlotOk(env: Env, slots: seq<Slot>, i: nat)
    requires i < |slots|
  {
    var row := slots[i].row;
    var p := slots[i].parent;
    row.id == env.freshId(i) && row.versionId == env.versionId &&
    row.contentHash == HashOf(env, row.sourceLocator, row.text) &&
    slots[i].children == PushedUnder(slots, |slots|, i) &&
    if i == 0 then
      row.nodeType == DOCUMENT && row.parentId.None? && row.chapter.None? && row.sourceLocator == Spell(DocPath)
    else
      p < i && row.parentId == Some(env.freshId(p)) && Trimmed(row.text) &&
      Fits(slots[p].row, row, |PushedUnder(slots, i, 0)|)
  }

  predicate LookupSiblings(a: Slot, b: Slot) {
    a.parent == b.parent && a.row.nodeType == b.row.nodeType && a.row.nodeType in {PARAGRAPH, CLAUSE}
  }

  /** Siblings that are looked up before being created do not repeat a locator. */
  ghost predicate SiblingsDistinct(slots: seq<Slot>) {
    forall i, j :: 0 < i < j < |slots| && LookupSiblings(slots[i], slots[j]) ==>
      slots[i].row.sourceLocator != slots[j].row.sourceLocator
  }

  ghost predicate SlotsOk(env: Env, slots: seq<Slot>) {
    slots != [] && (forall i :: 0 <= i < |slots| ==> SlotOk(env, slots, i)) && SiblingsDistinct(slots)
  }

  ghost predicate TypeAt(slots: seq<Slot>, c: Option<nat>, t: NodeType) {
    c.Some? ==> 0 < c.value < |slots| && slots[c.value].row.nodeType == t
  }

  /** The cursors form a chain in the tree. */
  ghost predicate CursorsOk(s: State) {
    TypeAt(s.slots, s.chapter, CHAPTER) && TypeAt(s.slots, s.article, ARTICLE) &&
    TypeAt(s.slots, s.paragraph, PARAGRAPH) && TypeAt(s.slots, s.clause, CLAUSE) &&
    (s.paragraph.Some? ==> s.article.Some? && s.slots[s.paragraph.value].parent == s.article.value) &&
    (s.clause.Some? ==> s.paragraph.Some? && s.slots[s.clause.value].parent == s.paragraph.value)
  }

  ghost predicate Inv(env: Env, s: State) {
    Bounded(s) && SlotsOk(env, s.slots) && CursorsOk(s)
  }

  // ----- Pushing a node -----

  lemma {:induction false} PushedUnderBelow(slots: seq<Slot>, k: nat, p: nat)
    requires k <= |slots|
    ensures forall j :: j in PushedUnder(slots, k, p) <==> 0 < j < k && slots[j].parent == p
    ensures |PushedUnder(slots, k, p)| <= k
  {
    if k > 1 {
      PushedUnderBelow(slots, k - 1, p);
    }
  }

  /** Only the parent fields matter. */
  lemma {:induction false} PushedUnderSame(a: seq<Slot>, b: seq<Slot>, k: nat, p: nat)
    requires k <= |a| && k <= |b| && forall i :: 0 <= i < k ==> a[i].parent == b[i].parent
    ensures PushedUnder(a, k, p) == PushedUnder(b, k, p)
  {
    if k > 1 {
      PushedUnderSame(a, b, k - 1, p);
    }
  }

  /** What a new row must satisfy before it is pushed under `p`. */
  ghost predicate Pushable(env: Env, slots: seq<Slot>, p: nat, row: FlatNode)
    requires p < |slots|
  {
    row.id == env.freshId(|slots|) && row.versionId == env.versionId &&
    row.contentHash == HashOf(env, row.sourceLocator, row.text) && Trimmed(row.text) &&
    row.parentId == Some(slots[p].row.id) && Fits(slots[p].row, row, |slots[0].children|) &&
    (row.nodeType in {PARAGRAPH, CLAUSE} ==>
      forall k :: 0 <= k < |slots[p].children| ==>
        slots[p].children[k] < |slots| && slots[slots[p].children[k]].row.sourceLocator != row.sourceLocator)
  }

  lemma PushOldSlot(env: Env, slots: seq<Slot>, p: nat, row: FlatNode, i: nat)
    requires InBounds(slots) && p < |slots| && i < |slots| && SlotOk(env, slots, i)
    ensures SlotOk(env, Push(slots, p, row), i)
  {
    var r := Push(slots, p, row);
    PushedUnderSame(slots, r, |slots|, i);
    PushedUnderSame(slots, r, i, 0);
  }

  lemma NothingUnderNext(env: Env, slots: seq<Slot>)
    requires SlotsOk(env, slots)
    ensures PushedUnder(slots, |slots|, |slots|) == []
  {
    var n := |slots|;
    PushedUnderBelow(slots, n, n);
    forall j | 0 < j < n
      ensures slots[j].parent != n
    {
      assert SlotOk(env, slots, j);
    }
    SomeMember(PushedUnder(slots, n, n));
  }

  /** A new node has no children yet, and the nodes under the others are as before. */
  lemma PushNewChildren(slots: seq<Slot>, p: nat, row: FlatNode)
    requires InBounds(slots) && p < |slots| && PushedUnder(slots, |slots|, |slots|) == []
    ensures var r := Push(slots, p, row);
            PushedUnder(r, |r|, |slots|) == [] && PushedUnder(r, |slots|, 0) == PushedUnder(slots, |slots|, 0)
  {
    var r := Push(slots, p, row);
    PushedUnderSame(slots, r, |slots|, 0);
    PushedUnderSame(slots, r, |slots|, |slots|);
  }

  lemma PushNewSlot(env: Env, slots: seq<Slot>, p: nat, row: FlatNode)
    requires InBounds(slots) && p < |slots| && slots[p].row.id == env.freshId(p)
    requires slots[0].children == PushedUnder(slots, |slots|, 0)
    requires Pushable(env, slots, p, row) && PushedUnder(slots, |slots|, |slots|) == []
    ensures SlotOk(env, Push(slots, p, row), |slots|)
  {
    var r := Push(slots, p, row);
    PushNewChildren(slots, p, row);
    assert r[p].row == slots[p].row && r[|slots|] == Slot(row, [], p);
  }

  lemma PushNewOk(env: Env, slots: seq<Slot>, p: nat, row: FlatNode)
    requires SlotsOk(env, slots) && InBounds(slots) && p < |slots| && Pushable(env, slots, p, row)
    ensures SlotOk(env, Push(slots, p, row), |slots|)
  {
    assert SlotOk(env, slots, 0) && SlotOk(env, slots, p);
    NothingUnderNext(env, slots);
    PushNewSlot(env, slots, p, row);
  }

  lemma PushKeepsSlots(env: Env, slots: seq<Slot>, p: nat, row: FlatNode)
    requires SlotsOk(env, slots) && InBounds(slots) && p < |slots| && Pushable(env, slots, p, row)
    ensures SlotsOk(env, Push(slots, p, row))
  {
    var r := Push(slots, p, row);
    var n := |slots|;
    forall i | 0 <= i < |r|
      ensures SlotOk(env, r, i)
    {
      if i < n {
        PushOldSlot(env, slots, p, row, i);
      } else {
        PushNewOk(env, slots, p, row);
      }
    }
    PushKeepsSiblings(env, slots, p, row);
  }

  lemma PushKeepsSiblings(env: Env, slots: seq<Slot>, p: nat, row: FlatNode)
    requires SlotsOk(env, slots) && InBounds(slots) && p < |slots| && Pushable(env, slots, p, row)
    ensures SiblingsDistinct(Push(slots, p, row))
  {
    var r := Push(slots, p, row);
    forall i, j | 0 < i < j < |r| && LookupSiblings(r[i], r[j])
      ensures r[i].row.sourceLocator != r[j].row.sourceLocator
    {
      assert slots[i].row == r[i].row && slots[i].parent == r[i].parent;
      if j < |slots| {
        assert slots[j].row == r[j].row && LookupSiblings(slots[i], slots[j]);
      } else {
        assert SlotOk(env, slots, p);
        PushedUnderBelow(slots, |slots|, p);
        assert i in slots[p].children;
      }
    }
  }

  // ----- Appending text -----

  lemma TrimTrimmed(s: string)
    requires Trimmed(s)
    ensures Trim(s) == s
  {
  }

  /** Text only grows by suffix, stays trimmed, and ends up including the line. */
  /**
   What a text becomes when a content is added to it: nothing that is there already is repeated,
   and one blank separates the rest.
   */
  function JoinText(text: string, content: string): (r: string) {
    if content == "" || Includes(text, content) then text
    else if text == "" then content else text + " " + content
  }

  lemma AppendTextMeaning(env: Env, row: FlatNode, line: string)
    requires Trimmed(row.text) && Trimmed(line)
    ensures var r := AppendText(env, row, line);
            row.text <= r.text && Trimmed(r.text) && Includes(r.text, line) && r.text == JoinText(row.text, line) &&
            r == row.(text := r.text, contentHash := r.contentHash) &&
            (row.contentHash == HashOf(env, row.sourceLocator, row.text) ==>
              r.contentHash == HashOf(env, r.sourceLocator, r.text))
  {
    if line != "" && row.text != "" && !Includes(row.text, line) {
      var joined := row.text + " " + line;
      assert joined[0] == row.text[0] && joined[|joined| - 1] == line[|line| - 1];
      TrimTrimmed(joined);
      IncludesSuffix(row.text + " ", line);
    }
  }

  /** The rows are the same but for text and hash. */
  predicate SameButText(a: FlatNode, b: FlatNode) {
    b == a.(text := b.text, contentHash := b.contentHash)
  }

  lemma FitsStays(up: FlatNode, row: FlatNode, up': FlatNode, row': FlatNode, rootKids: nat)
    requires Fits(up, row, rootKids) && SameButText(up, up') && SameButText(row, row')
    ensures Fits(up', row', rootKids)
  {
  }

  /** Appending changes text and hash of one row, in step, and no structure. */
  lemma AppendChanges(env: Env, slots: seq<Slot>, i: nat, line: string, j: nat)
    requires InBounds(slots) && i < |slots| && j < |slots|
    ensures var r := AppendAt(env, slots, i, line);
            SameButText(slots[j].row, r[j].row) && r[j].parent == slots[j].parent &&
            r[j].children == slots[j].children && (j != i ==> r[j] == slots[j]) &&
            PushedUnder(r, |r|, j) == PushedUnder(slots, |slots|, j) && PushedUnder(r, j, 0) == PushedUnder(slots, j, 0)
  {
    var r := AppendAt(env, slots, i, line);
    PushedUnderSame(slots, r, |r|, j);
    PushedUnderSame(slots, r, j, 0);
  }

  lemma AppendKeepsSlot(env: Env, slots: seq<Slot>, i: nat, line: string, j: nat)
    requires SlotsOk(env, slots) && InBounds(slots) && 0 < i < |slots| && Trimmed(line) && j < |slots|
    ensures SlotOk(env, AppendAt(env, slots, i, line), j)
  {
    assert SlotOk(env, slots, i) && SlotOk(env, slots, j);
    AppendOneSlot(env, slots, i, line, j);
  }

  lemma AppendOneSlot(env: Env, slots: seq<Slot>, i: nat, line: string, j: nat)
    requires InBounds(slots) && 0 < i < |slots| && Trimmed(line) && j < |slots|
    requires SlotOk(env, slots, i) && SlotOk(env, slots, j)
    ensures SlotOk(env, AppendAt(env, slots, i, line), j)
  {
    var r := AppendAt(env, slots, i, line);
    AppendTextMeaning(env, slots[i].row, line);
    AppendChanges(env, slots, i, line, j);
    if j > 0 {
      var p := slots[j].parent;
      AppendChanges(env, slots, i, line, p);
      FitsStays(slots[p].row, slots[j].row, r[p].row, r[j].row, |PushedUnder(slots, j, 0)|);
    }
  }

  lemma AppendKeepsSlots(env: Env, slots: seq<Slot>, i: nat, line: string)
    requires SlotsOk(env, slots) && InBounds(slots) && 0 < i < |slots| && Trimmed(line)
    ensures SlotsOk(env, AppendAt(env, slots, i, line))
  {
    var r := AppendAt(env, slots, i, line);
    forall j | 0 <= j < |r|
      ensures SlotOk(env, r, j)
    {
      AppendKeepsSlot(env, slots, i, line, j);
    }
    forall a, b | 0 < a < b < |r| && LookupSiblings(r[a], r[b])
      ensures r[a].row.sourceLocator != r[b].row.sourceLocator
    {
      assert LookupSiblings(slots[a], slots[b]);
    }
  }

  // ----- The building blocks of a step -----

  lemma ChildFacts(env: Env, slots: seq<Slot>, p: nat, c: nat)
    requires SlotsOk(env, slots) && p < |slots| && c in slots[p].children
    ensures 0 < c < |slots| && slots[c].parent == p && SlotOk(env, slots, c)
  {
    assert SlotOk(env, slots, p);
    PushedUnderBelow(slots, |slots|, p);
  }

  lemma ParagraphPushable(env: Env, slots: seq<Slot>, a: nat, num: string, text: string)
    requires SlotsOk(env, slots) && InBounds(slots) && a < |slots| && slots[a].row.nodeType == ARTICLE
    requires IsDigits(num) && Trimmed(text)
    requires FindByLocator(slots, slots[a].children, slots[a].row.sourceLocator + "/p-" + num).None?
    ensures Pushable(env, slots, a, ParagraphRow(env, slots, a, num, text))
  {
    assert SlotOk(env, slots, a);
  }

  lemma EnsureParagraphOk(env: Env, slots: seq<Slot>, a: nat, num: string, initial: Option<string>)
    requires SlotsOk(env, slots) && InBounds(slots) && a < |slots| && slots[a].row.nodeType == ARTICLE
    requires IsDigits(num) && (initial.Some? ==> Trimmed(initial.value))
    ensures var (r, p) := EnsureParagraph(env, slots, a, num, initial);
            SlotsOk(env, r) && 0 < p < |r| && r[p].row.nodeType == PARAGRAPH && r[p].parent == a &&
            r[p].row.paragraph == Some(num) && r[p].row.article == slots[a].row.article
  {
    match FindByLocator(slots, slots[a].children, slots[a].row.sourceLocator + "/p-" + num) {
      case Some(p) =>
        assert SlotOk(env, slots, a);
        ChildFacts(env, slots, a, p);
        ParagraphLocator(slots[a].row, slots[p].row, num);
      case None =>
        ParagraphPushable(env, slots, a, num, TextOr(initial));
        PushKeepsSlots(env, slots, a, ParagraphRow(env, slots, a, num, TextOr(initial)));
    }
  }

  /** A child of an article whose locator spells paragraph `num` is that paragraph. */
  lemma ParagraphLocator(up: FlatNode, row: FlatNode, num: string)
    requires up.nodeType == ARTICLE && row.nodeType == PARAGRAPH && Fits(up, row, 0) && IsDigits(num)
    requires up.article.Some? && up.sourceLocator == Spell(ArticlePath(up.article.value))
    requires IsArticleToken(up.article.value) && row.sourceLocator == up.sourceLocator + "/p-" + num
    ensures row.paragraph == Some(num)
  {
    SpellInjective(ParagraphPath(row.article.value, row.paragraph.value), ParagraphPath(up.article.value, num));
  }

  lemma ClausePushable(env: Env, slots: seq<Slot>, p: nat, num: string, text: string)
    requires SlotsOk(env, slots) && InBounds(slots) && p < |slots| && slots[p].row.nodeType == PARAGRAPH
    requires IsDigits(num) && Trimmed(text)
    requires FindByLocator(slots, slots[p].children, slots[p].row.sourceLocator + "/c-" + num).None?
    ensures Pushable(env, slots, p, ClauseRow(env, slots, p, num, text))
  {
    assert SlotOk(env, slots, p);
  }

  lemma EnsureClauseOk(env: Env, slots: seq<Slot>, p: nat, num: string, initial: Option<string>)
    requires SlotsOk(env, slots) && InBounds(slots) && p < |slots| && slots[p].row.nodeType == PARAGRAPH
    requires IsDigits(num) && (initial.Some? ==> Trimmed(initial.value))
    ensures var (r, c) := EnsureClause(env, slots, p, num, initial);
            SlotsOk(env, r) && 0 < c < |r| && r[c].row.nodeType == CLAUSE && r[c].parent == p &&
            r[c].row.clause == Some(num) && r[c].row.paragraph == slots[p].row.paragraph &&
            r[c].row.article == slots[p].row.article
  {
    match FindByLocator(slots, slots[p].children, slots[p].row.sourceLocator + "/c-" + num) {
      case Some(c) =>
        assert SlotOk(env, slots, p);
        ChildFacts(env, slots, p, c);
        ClauseLocator(slots[p].row, slots[c].row, num);
      case None =>
        ClausePushable(env, slots, p, num, TextOr(initial));
        PushKeepsSlots(env, slots, p, ClauseRow(env, slots, p, num, TextOr(initial)));
    }
  }

  lemma ClauseLocator(up: FlatNode, row: FlatNode, num: string)
    requires up.nodeType == PARAGRAPH && row.nodeType == CLAUSE && Fits(up, row, 0) && IsDigits(num)
    requires up.article.Some? && up.paragraph.Some?
    requires ValidPath(ParagraphPath(up.article.value, up.paragraph.value))
    requires up.sourceLocator == Spell(ParagraphPath(up.article.value, up.paragraph.value))
    requires row.sourceLocator == up.sourceLocator + "/c-" + num
    ensures row.clause == Some(num)
  {
    SpellInjective(ClausePath(row.article.value, row.paragraph.value, row.clause.value),
                   ClausePath(up.article.value, up.paragraph.value, num));
  }

  // ----- Every step keeps the invariant -----

  lemma StartInv(env: Env, title: string)
    requires ValidEnv(env)
    ensures Inv(env, Start(env, title))
  {
    assert SlotOk(env, Start(env, title).slots, 0);
  }

  lemma ChapterTokenOk(value: nat, bis: Option<string>)
    requires value > 0 && (bis.Some? ==> IsDigits(bis.value))
    ensures IsChapterToken(ArticleToken(NatToString(value), bis))
    ensures ArticleToken(NatToString(value), bis)[0] != '0'
  {
    assert IsBisToken(ArticleToken(NatToString(value), bis), NatToString(value), bis);
  }

  lemma ArticleTokenOk(main: string, bis: Option<string>)
    requires IsHeadingNumber(main) && (bis.Some? ==> IsDigits(bis.value))
    ensures IsArticleToken(ArticleToken(main, bis))
  {
    var head, minor :| IsCompoundToken(main, head, minor, None);
    var t := ArticleToken(main, bis);
    assert IsCompoundToken(t, head, minor, bis) by {
      var m := match minor case None => "" case Some(m) => "." + m;
      assert main == head + m + "" == head + m;
      assert bis.None? ==> t == head + m + "";
      assert bis.Some? ==> t == main + "^" + bis.value == head + m + ("^" + bis.value);
    }
  }

  lemma DigitsAreHeading(s: string)
    requires IsDigits(s)
    ensures IsHeadingNumber(s)
  {
    assert s == s + "" + "";
    assert IsCompoundToken(s, s, None, None);
  }

  lemma ChapterKeeps(env: Env, s: State, token: string, line: string)
    requires Inv(env, s) && IsChapterToken(token) && token[0] != '0' && Trimmed(line)
    ensures Inv(env, ChapterStep(env, s, token, line))
  {
    assert SlotOk(env, s.slots, 0);
    PushKeepsSlots(env, s.slots, 0, ChapterRow(env, s.slots, token, line));
  }

  lemma ArticleKeeps(env: Env, s: State, token: string, title: Option<string>, line: string)
    requires Inv(env, s) && IsArticleToken(token) && Trimmed(line)
    ensures Inv(env, ArticleStep(env, s, token, title, line))
  {
    assert SlotOk(env, s.slots, 0);
    assert SlotOk(env, s.slots, ArticleParent(s));
    PushKeepsSlots(env, s.slots, ArticleParent(s), ArticleRow(env, s, token, title, line));
  }

  lemma AnnexKeeps(env: Env, s: State, line: string)
    requires Inv(env, s) && Trimmed(line)
    ensures Inv(env, AnnexStep(env, s, line))
  {
    assert SlotOk(env, s.slots, 0);
    assert SlotOk(env, s.slots, ArticleParent(s));
    PushKeepsSlots(env, s.slots, ArticleParent(s), AnnexRow(env, s, line));
  }

  lemma TargetIsArticle(env: Env, s: State, token: string)
    requires Inv(env, s) && s.article.Some?
    ensures 0 < TargetArticle(s, token) < |s.slots| && s.slots[TargetArticle(s, token)].row.nodeType == ARTICLE
  {
    assert SlotOk(env, s.slots, 0);
  }

  lemma SubClausePushable(env: Env, slots: seq<Slot>, a: nat, p: nat, c: nat, num: string, text: string)
    requires SlotsOk(env, slots) && InBounds(slots) && a < |slots| && 0 < p < |slots| && 0 < c < |slots|
    requires slots[p].parent == a && slots[c].parent == p && slots[c].row.nodeType == CLAUSE
    requires slots[c].row.clause.Some? && IsDigits(num) && Trimmed(text)
    ensures Pushable(env, slots, c, SubClauseRow(env, slots, a, p, c, slots[c].row.clause.value, num, text))
  {
    assert SlotOk(env, slots, c);
    assert SlotOk(env, slots, p);
  }

  lemma SimpleClauseKeeps(env: Env, s: State, target: nat, p: nat, num: string, rest: string)
    requires Inv(env, s) && 0 < target < |s.slots| && s.slots[target].row.nodeType == ARTICLE
    requires 0 < p < |s.slots| && s.slots[p].row.nodeType == PARAGRAPH && s.slots[p].parent == target
    requires IsDigits(num) && Trimmed(rest)
    ensures Inv(env, SimpleClauseStep(env, s, target, p, num, rest))
  {
    EnsureClauseOk(env, s.slots, p, num, Some(rest));
    var (slots, c) := EnsureClause(env, s.slots, p, num, Some(rest));
    EnsureClauseFrame(env, s.slots, p, num, Some(rest));
    AppendKeepsSlots(env, slots, c, rest);
  }

  lemma EnsureClauseFrame(env: Env, slots: seq<Slot>, p: nat, num: string, initial: Option<string>)
    requires InBounds(slots) && p < |slots|
    ensures var r := EnsureClause(env, slots, p, num, initial).0;
            forall i :: 0 <= i < |slots| ==> r[i].row == slots[i].row && r[i].parent == slots[i].parent
  {
  }

  lemma EnsureParagraphFrame(env: Env, slots: seq<Slot>, a: nat, num: string, initial: Option<string>)
    requires InBounds(slots) && a < |slots|
    ensures var r := EnsureParagraph(env, slots, a, num, initial).0;
            forall i :: 0 <= i < |slots| ==> r[i].row == slots[i].row && r[i].parent == slots[i].parent
  {
  }

  /** A qualified line that only names a paragraph. */
  lemma ParagraphAloneKeeps(env: Env, s: State, target: nat, para: string, sub: Option<string>, rest: string)
    requires Inv(env, s) && 0 < target < |s.slots| && s.slots[target].row.nodeType == ARTICLE
    requires IsDigits(para) && Trimmed(rest)
    ensures Inv(env, ParagraphStep(env, s, target, para, None, sub, rest))
  {
    EnsureParagraphOk(env, s.slots, target, para, Some(rest));
    EnsureParagraphFrame(env, s.slots, target, para, Some(rest));
    var (slots1, p) := EnsureParagraph(env, s.slots, target, para, Some(rest));
    AppendKeepsSlots(env, slots1, p, rest);
  }

  /** A qualified line that names a paragraph and a clause. */
  lemma ClauseKeeps(env: Env, s: State, target: nat, para: string, clause: string, rest: string)
    requires Inv(env, s) && 0 < target < |s.slots| && s.slots[target].row.nodeType == ARTICLE
    requires IsDigits(para) && Trimmed(rest) && IsDigits(clause)
    ensures Inv(env, ParagraphStep(env, s, target, para, Some(clause), None, rest))
  {
    EnsureParagraphOk(env, s.slots, target, para, None);
    EnsureParagraphFrame(env, s.slots, target, para, None);
    var (slots1, p) := EnsureParagraph(env, s.slots, target, para, None);
    EnsureClauseOk(env, slots1, p, clause, Some(rest));
    EnsureClauseFrame(env, slots1, p, clause, Some(rest));
    var (slots2, c) := EnsureClause(env, slots1, p, clause, Some(rest));
    AppendKeepsSlots(env, slots2, c, rest);
  }

  /** A qualified line that names a sub-clause as well. */
  lemma SubClauseKeeps(env: Env, s: State, target: nat, para: string, clause: string, sub: string, rest: string)
    requires Inv(env, s) && 0 < target < |s.slots| && s.slots[target].row.nodeType == ARTICLE
    requires IsDigits(para) && Trimmed(rest) && IsDigits(clause) && IsDigits(sub)
    ensures Inv(env, ParagraphStep(env, s, target, para, Some(clause), Some(sub), rest))
  {
    EnsureParagraphOk(env, s.slots, target, para, None);
    EnsureParagraphFrame(env, s.slots, target, para, None);
    var (slots1, p) := EnsureParagraph(env, s.slots, target, para, None);
    EnsureClauseOk(env, slots1, p, clause, None);
    EnsureClauseFrame(env, slots1, p, clause, None);
    var (slots2, c) := EnsureClause(env, slots1, p, clause, None);
    SubClausePushable(env, slots2, target, p, c, sub, rest);
    PushKeepsSlots(env, slots2, c, SubClauseRow(env, slots2, target, p, c, clause, sub, rest));
  }

  lemma ParagraphKeeps(env: Env, s: State, target: nat, para: string,
                       clause: Option<string>, sub: Option<string>, rest: string)
    requires Inv(env, s) && 0 < target < |s.slots| && s.slots[target].row.nodeType == ARTICLE
    requires IsDigits(para) && Trimmed(rest)
    requires (clause.Some? ==> IsDigits(clause.value)) && (sub.Some? ==> IsDigits(sub.value))
    ensures Inv(env, ParagraphStep(env, s, target, para, clause, sub, rest))
  {
    match clause {
      case None => ParagraphAloneKeeps(env, s, target, para, sub, rest);
      case Some(c) =>
        match sub {
          case None => ClauseKeeps(env, s, target, para, c, rest);
          case Some(n) => SubClauseKeeps(env, s, target, para, c, n, rest);
        }
    }
  }

  lemma QualifiedKeeps(env: Env, s: State, token: string, main: string, para: string,
                       clause: Option<string>, sub: Option<string>, rest: string)
    requires Inv(env, s) && s.article.Some? && IsDigits(para) && Trimmed(rest)
    requires (clause.Some? ==> IsDigits(clause.value)) && (sub.Some? ==> IsDigits(sub.value))
    ensures Inv(env, QualifiedStep(env, s, token, main, para, clause, sub, rest))
  {
    TargetIsArticle(env, s, token);
    var target := TargetArticle(s, token);
    var simple := if clause.None? then FindSimple(s.slots, s.slots[target].children, main, s.simple) else None;
    match simple {
      case Some(p) =>
        ChildFacts(env, s.slots, target, p);
        SimpleClauseKeeps(env, s, target, p, para, rest);
      case None =>
        ParagraphKeeps(env, s, target, para, clause, sub, rest);
    }
  }

  lemma SimpleKeeps(env: Env, s: State, num: string, rest: string)
    requires Inv(env, s) && s.article.Some? && IsDigits(num) && Trimmed(rest)
    ensures Inv(env, SimpleStep(env, s, num, rest))
  {
    EnsureParagraphOk(env, s.slots, s.article.value, num, Some(rest));
    EnsureParagraphFrame(env, s.slots, s.article.value, num, Some(rest));
    var (slots, p) := EnsureParagraph(env, s.slots, s.article.value, num, Some(rest));
    AppendKeepsSlots(env, slots, p, rest);
  }

  lemma TextKeeps(env: Env, s: State, line: string)
    requires Inv(env, s) && Trimmed(line)
    ensures Inv(env, TextStep(env, s, line))
  {
    if s.clause.Some? {
      AppendKeepsSlots(env, s.slots, s.clause.value, line);
    } else if s.paragraph.Some? {
      AppendKeepsSlots(env, s.slots, s.paragraph.value, line);
    } else if s.article.Some? {
      AppendKeepsSlots(env, s.slots, s.article.value, line);
    }
  }

  lemma StepKeepsInv(env: Env, s: State, l: Line)
    requires Inv(env, s) && WellFormed(l)
    ensures Inv(env, Step(env, s, l))
  {
    match l {
      case Chrome =>
      case Chapter(line, value, bis) =>
        ChapterTokenOk(value, bis);
        ChapterKeeps(env, s, ArticleToken(NatToString(value), bis), line);
      case ArticleWord(line, value, title) =>
        DigitsAreHeading(NatToString(value));
        ArticleTokenOk(NatToString(value), None);
        ArticleKeeps(env, s, NatToString(value), title, line);
      case ArticleNumber(line, main, bis, title) =>
        ArticleTokenOk(main, bis);
        ArticleKeeps(env, s, ArticleToken(main, bis), title, line);
      case Annex(line) => AnnexKeeps(env, s, line);
      case Qualified(line, main, bis, para, clause, sub, rest) =>
        if s.article.Some? {
          QualifiedKeeps(env, s, ArticleToken(main, bis), main, para, clause, sub, rest);
        } else {
          TextKeeps(env, s, line);
        }
      case Simple(line, num, rest) =>
        if s.article.Some? {
          SimpleKeeps(env, s, num, rest);
        } else {
          TextKeeps(env, s, line);
        }
      case Plain(line) => TextKeeps(env, s, line);
    }
  }

  ghost predicate AllWellFormed(lines: seq<Line>) {
    forall i :: 0 <= i < |lines| ==> WellFormed(lines[i])
  }

  /** Every sequence of lines leaves the parser in a state that satisfies the invariant. */
  lemma {:induction false} RunInv(env: Env, title: string, lines: seq<Line>)
    requires ValidEnv(env) && AllWellFormed(lines)
    ensures Inv(env, Run(env, title, lines))
    decreases |lines|
  {
    if lines == [] {
      StartInv(env, title);
    } else {
      RunInv(env, title, lines[..|lines| - 1]);
      StepKeepsInv(env, Run(env, title, lines[..|lines| - 1]), lines[|lines| - 1]);
    }
  }
}
