/**
 When the parser produces a locator twice. A scan that keeps one article token and a few
 counters predicts, from the lines alone, every locator that the parser is bound to
 create; all locators of the tree are distinct exactly when that list has no repeats.
 */
module ParserLocators {
  import opened Prelude
  import opened LegalNodes
  import opened LocatorGrammar
  import opened ParserModel
  import opened ParserInvariants

  // ----- The scan over lines -----

  datatype Scan = Scan(
    inChapter: bool,
    rootKids: nat,
    current: Option<string>,
    seen: set<string>,
    keys: seq<string>)

  /** A chapter, article, annex or sub-clause heading always makes a node of its own. */
  function ScanStep(sc: Scan, l: Line): (r: Scan) {
    var atRoot := if sc.inChapter then sc.rootKids else sc.rootKids + 1;
    match l
    case Chrome => sc
    case Chapter(_, value, bis) =>
      Scan(true, sc.rootKids + 1, None, sc.seen,
           sc.keys + [Spell(ChapterPath(ArticleToken(NatToString(value), bis)))])
    case ArticleWord(_, value, _) =>
      var t := NatToString(value);
      Scan(sc.inChapter, atRoot, Some(t), sc.seen + {t}, sc.keys + [Spell(ArticlePath(t))])
    case ArticleNumber(_, main, bis, _) =>
      var t := ArticleToken(main, bis);
      Scan(sc.inChapter, atRoot, Some(t), sc.seen + {t}, sc.keys + [Spell(ArticlePath(t))])
    case Annex(_) =>
      Scan(sc.inChapter, atRoot, None, sc.seen, sc.keys + [Spell(AnnexPath(NatToString(sc.rootKids + 1)))])
    case Qualified(_, main, bis, para, clause, sub, _) =>
      if sc.current.None? then sc
      else
        var t := ArticleToken(main, bis);
        var cur := if t in sc.seen then t else sc.current.value;
        sc.(current := Some(cur),
            keys := if clause.Some? && sub.Some?
                    then sc.keys + [Spell(SubClausePath(cur, para, clause.value, sub.value))] else sc.keys)
    case Simple(_, _, _) => sc
    case Plain(_) => sc
  }

  function ScanLines(lines: seq<Line>): (r: Scan)
    decreases |lines|
  {
    if lines == [] then Scan(false, 0, None, {}, [])
    else ScanStep(ScanLines(lines[..|lines| - 1]), lines[|lines| - 1])
  }

  /** The locators that the lines call for, in order. */
  function LocatorKeys(lines: seq<Line>): (r: seq<string>) {
    ScanLines(lines).keys
  }

  // ----- The same facts read off the slots -----

  predicate IsKey(row: FlatNode) {
    row.nodeType in {CHAPTER, ARTICLE, SUB_CLAUSE, ANNEX}
  }

  function Keys(slots: seq<Slot>, k: nat): (r: seq<string>)
    requires k <= |slots|
  {
    if k == 0 then []
    else Keys(slots, k - 1) + if IsKey(slots[k - 1].row) then [slots[k - 1].row.sourceLocator] else []
  }

  function Tokens(slots: seq<Slot>, k: nat): (r: set<string>)
    requires k <= |slots|
  {
    if k == 0 then {}
    else Tokens(slots, k - 1) +
         if slots[k - 1].row.nodeType == ARTICLE && slots[k - 1].row.article.Some?
         then {slots[k - 1].row.article.value} else {}
  }

  /** Types, article numbers and locators of old rows are untouched. */
  ghost predicate SameHeads(a: seq<Slot>, b: seq<Slot>) {
    |a| <= |b| && forall i :: 0 <= i < |a| ==> SameHead(a[i].row, b[i].row)
  }

  predicate SameHead(a: FlatNode, b: FlatNode) {
    a.nodeType == b.nodeType && a.article == b.article && a.sourceLocator == b.sourceLocator
  }

  lemma {:induction false} KeysSame(a: seq<Slot>, b: seq<Slot>, k: nat)
    requires SameHeads(a, b) && k <= |a|
    ensures Keys(a, k) == Keys(b, k) && Tokens(a, k) == Tokens(b, k)
  {
    if k > 0 {
      KeysSame(a, b, k - 1);
      assert SameHead(a[k - 1].row, b[k - 1].row);
    }
  }

  lemma {:induction false} TokensMeaning(slots: seq<Slot>, k: nat, t: string)
    requires k <= |slots|
    ensures t in Tokens(slots, k) <==> exists i :: 0 <= i < k && IsArticle(slots[i].row, t)
  {
    if k > 0 {
      TokensMeaning(slots, k - 1, t);
    }
  }

  lemma {:induction false} KeysMeaning(slots: seq<Slot>, k: nat, l: string)
    requires k <= |slots|
    ensures l in Keys(slots, k) <==> exists i :: 0 <= i < k && IsKey(slots[i].row) && slots[i].row.sourceLocator == l
  {
    if k > 0 {
      KeysMeaning(slots, k - 1, l);
    }
  }

  /** The article search finds a token exactly when some article carries it. */
  lemma FindArticleComplete(env: Env, s: State, t: string)
    requires Inv(env, s)
    ensures FindArticle(s.slots, s.slots[0].children, t).Some? <==> t in Tokens(s.slots, |s.slots|)
  {
    TokensMeaning(s.slots, |s.slots|, t);
    if t in Tokens(s.slots, |s.slots|) {
      var i :| 0 <= i < |s.slots| && IsArticle(s.slots[i].row, t);
      var p := s.slots[i].parent;
      ChildOfParent(env, s.slots, i);
      if p != 0 {
        ChildOfParent(env, s.slots, p);
        NonRootType(env, s.slots, s.slots[p].parent);
      }
    }
  }

  lemma ChildOfParent(env: Env, slots: seq<Slot>, i: nat)
    requires SlotsOk(env, slots) && i < |slots| && slots[i].row.nodeType != DOCUMENT
    ensures slots[i].parent < i && i in slots[slots[i].parent].children
    ensures Fits(slots[slots[i].parent].row, slots[i].row, |PushedUnder(slots, i, 0)|)
    ensures slots[i].parent != 0 ==> slots[slots[i].parent].row.nodeType != DOCUMENT
  {
    assert SlotOk(env, slots, i);
    assert SlotOk(env, slots, 0);
    var p := slots[i].parent;
    assert SlotOk(env, slots, p);
    PushedUnderBelow(slots, |slots|, p);
  }

  lemma NonRootType(env: Env, slots: seq<Slot>, i: nat)
    requires SlotsOk(env, slots) && i < |slots|
    ensures slots[i].row.nodeType == DOCUMENT <==> i == 0
  {
    assert SlotOk(env, slots, i);
  }

  // ----- The scan agrees with the state -----

  ghost predicate Agrees(s: State, sc: Scan)
    requires Bounded(s)
  {
    sc.inChapter == s.chapter.Some? &&
    sc.rootKids == |s.slots[0].children| &&
    sc.current == (match s.article case None => None case Some(a) => s.slots[a].row.article) &&
    sc.seen == Tokens(s.slots, |s.slots|) &&
    sc.keys == Keys(s.slots, |s.slots|)
  }

  /** The effect of pushing one row on everything the scan tracks. */
  lemma PushTracked(slots: seq<Slot>, p: nat, row: FlatNode)
    requires InBounds(slots) && p < |slots|
    ensures var r := Push(slots, p, row);
            SameHeads(slots, r) &&
            Keys(r, |r|) == Keys(slots, |slots|) + (if IsKey(row) then [row.sourceLocator] else []) &&
            Tokens(r, |r|) == Tokens(slots, |slots|) +
              (if row.nodeType == ARTICLE && row.article.Some? then {row.article.value} else {}) &&
            |r[0].children| == |slots[0].children| + (if p == 0 then 1 else 0)
  {
    var r := Push(slots, p, row);
    assert forall i :: 0 <= i < |slots| ==> r[i].row == slots[i].row;
    KeysSame(slots, r, |slots|);
    assert r[|slots|].row == row;
  }

  /** From `a` to `b` the tracked facts change by `more` keys and nothing else. */
  ghost predicate Tracked(a: seq<Slot>, b: seq<Slot>, more: seq<string>) {
    a != [] && b != [] && SameHeads(a, b) && Keys(b, |b|) == Keys(a, |a|) + more &&
    Tokens(a, |a|) == Tokens(b, |b|) && |a[0].children| == |b[0].children|
  }

  lemma AppendTracked(env: Env, slots: seq<Slot>, i: nat, line: string)
    requires InBounds(slots) && i < |slots|
    ensures Tracked(slots, AppendAt(env, slots, i, line), [])
  {
    var r := AppendAt(env, slots, i, line);
    assert forall j :: 0 <= j < |slots| ==> SameHead(slots[j].row, r[j].row);
    KeysSame(slots, r, |slots|);
  }

  lemma EnsureParagraphTracked(env: Env, slots: seq<Slot>, p: nat, num: string, initial: Option<string>)
    requires InBounds(slots) && 0 < p < |slots|
    ensures Tracked(slots, EnsureParagraph(env, slots, p, num, initial).0, [])
  {
    PushTracked(slots, p, ParagraphRow(env, slots, p, num, TextOr(initial)));
  }

  lemma EnsureClauseTracked(env: Env, slots: seq<Slot>, p: nat, num: string, initial: Option<string>)
    requires InBounds(slots) && 0 < p < |slots|
    ensures Tracked(slots, EnsureClause(env, slots, p, num, initial).0, [])
  {
    PushTracked(slots, p, ClauseRow(env, slots, p, num, TextOr(initial)));
  }

  lemma TrackedTrans(a: seq<Slot>, b: seq<Slot>, c: seq<Slot>, more: seq<string>)
    requires Tracked(a, b, []) && Tracked(b, c, more)
    ensures Tracked(a, c, more)
  {
    forall i | 0 <= i < |a|
      ensures SameHead(a[i].row, c[i].row)
    {
      assert SameHead(a[i].row, b[i].row) && SameHead(b[i].row, c[i].row);
    }
  }

  /** The clause part of a qualified line: the last three branches. */
  lemma BelowParagraphTracked(env: Env, slots: seq<Slot>, a: nat, p: nat, clause: string,
                              sub: Option<string>, rest: string)
    requires SlotsOk(env, slots) && InBounds(slots) && 0 < p < |slots| && slots[p].row.nodeType == PARAGRAPH
    requires a < |slots| && slots[p].parent == a && slots[p].row.article.Some? && slots[p].row.paragraph.Some?
    requires IsDigits(clause) && (sub.Some? ==> IsDigits(sub.value)) && Trimmed(rest)
    ensures var initial := if sub.Some? then None else Some(rest);
            var (r, c) := EnsureClause(env, slots, p, clause, initial);
            if sub.None? then Tracked(slots, AppendAt(env, r, c, rest), [])
            else Tracked(slots, Push(r, c, SubClauseRow(env, r, a, p, c, clause, sub.value, rest)),
                         [Spell(SubClausePath(slots[p].row.article.value, slots[p].row.paragraph.value, clause,
                                              sub.value))])
  {
    var initial := if sub.Some? then None else Some(rest);
    EnsureClauseOk(env, slots, p, clause, initial);
    EnsureClauseTracked(env, slots, p, clause, initial);
    var (r, c) := EnsureClause(env, slots, p, clause, initial);
    if sub.None? {
      AppendTracked(env, r, c, rest);
      TrackedTrans(slots, r, AppendAt(env, r, c, rest), []);
    } else {
      var row := SubClauseRow(env, r, a, p, c, clause, sub.value, rest);
      SubClauseSpelled(env, r, c, sub.value);
      PushTracked(r, c, row);
      TrackedTrans(slots, r, Push(r, c, row), [row.sourceLocator]);
    }
  }

  lemma ParagraphTracked(env: Env, s: State, target: nat, para: string,
                         clause: Option<string>, sub: Option<string>, rest: string)
    requires Inv(env, s) && 0 < target < |s.slots| && s.slots[target].row.nodeType == ARTICLE
    requires IsDigits(para) && Trimmed(rest) && s.slots[target].row.article.Some?
    requires (clause.Some? ==> IsDigits(clause.value)) && (sub.Some? ==> IsDigits(sub.value))
    ensures Tracked(s.slots, ParagraphStep(env, s, target, para, clause, sub, rest).slots,
                    if clause.Some? && sub.Some?
                    then [Spell(SubClausePath(s.slots[target].row.article.value, para, clause.value, sub.value))]
                    else [])
  {
    var initial := if clause.Some? then None else Some(rest);
    EnsureParagraphOk(env, s.slots, target, para, initial);
    EnsureParagraphTracked(env, s.slots, target, para, initial);
    var (slots1, p) := EnsureParagraph(env, s.slots, target, para, initial);
    var r := ParagraphStep(env, s, target, para, clause, sub, rest);
    if clause.None? {
      AppendTracked(env, slots1, p, rest);
      TrackedTrans(s.slots, slots1, r.slots, []);
    } else {
      BelowParagraphTracked(env, slots1, target, p, clause.value, sub, rest);
      TrackedTrans(s.slots, slots1, r.slots,
                   if sub.Some?
                   then [Spell(SubClausePath(s.slots[target].row.article.value, para, clause.value, sub.value))]
                   else []);
    }
  }

  lemma SimpleClauseTracked(env: Env, s: State, target: nat, p: nat, num: string, rest: string)
    requires Inv(env, s) && target < |s.slots|
    requires 0 < p < |s.slots| && s.slots[p].row.nodeType == PARAGRAPH && IsDigits(num) && Trimmed(rest)
    ensures Tracked(s.slots, SimpleClauseStep(env, s, target, p, num, rest).slots, [])
  {
    EnsureClauseOk(env, s.slots, p, num, Some(rest));
    EnsureClauseTracked(env, s.slots, p, num, Some(rest));
    var (slots, c) := EnsureClause(env, s.slots, p, num, Some(rest));
    AppendTracked(env, slots, c, rest);
    TrackedTrans(s.slots, slots, AppendAt(env, slots, c, rest), []);
  }

  lemma SubClauseSpelled(env: Env, slots: seq<Slot>, c: nat, num: string)
    requires SlotsOk(env, slots) && 0 < c < |slots| && slots[c].row.nodeType == CLAUSE
    ensures slots[c].row.article.Some? && slots[c].row.paragraph.Some? && slots[c].row.clause.Some?
    ensures slots[c].row.sourceLocator + "/sc-" + num ==
            Spell(SubClausePath(slots[c].row.article.value, slots[c].row.paragraph.value, slots[c].row.clause.value,
                                num))
  {
    assert SlotOk(env, slots, c);
  }

  lemma TargetToken(env: Env, s: State, token: string)
    requires Inv(env, s) && s.article.Some?
    ensures var a := TargetArticle(s, token);
            s.slots[a].row.article ==
            if token in Tokens(s.slots, |s.slots|) then Some(token) else s.slots[s.article.value].row.article
  {
    FindArticleComplete(env, s, token);
    TokensMeaning(s.slots, |s.slots|, token);
    if s.slots[s.article.value].row.article == Some(token) {
      assert IsArticle(s.slots[s.article.value].row, token);
    }
  }

  /** The keys that a qualified line adds when its target article carries token `t`. */
  function QualifiedKeys(t: string, l: Line): (r: seq<string>)
    requires l.Qualified?
  {
    if l.clause.Some? && l.sub.Some? then [Spell(SubClausePath(t, l.para, l.clause.value, l.sub.value))] else []
  }

  lemma QualifiedTracked(env: Env, s: State, l: Line, target: nat)
    requires Inv(env, s) && WellFormed(l) && l.Qualified? && s.article.Some?
    requires target == TargetArticle(s, ArticleToken(l.main, l.bis))
    ensures s.slots[target].row.article.Some? && Step(env, s, l).article == Some(target)
    ensures Step(env, s, l).chapter == s.chapter
    ensures Tracked(s.slots, Step(env, s, l).slots, QualifiedKeys(s.slots[target].row.article.value, l))
  {
    TargetIsArticle(env, s, ArticleToken(l.main, l.bis));
    assert SlotOk(env, s.slots, target);
    var simple := if l.clause.None? then FindSimple(s.slots, s.slots[target].children, l.main, s.simple) else None;
    if simple.Some? {
      ChildFacts(env, s.slots, target, simple.value);
      SimpleClauseTracked(env, s, target, simple.value, l.para, l.rest);
    } else {
      ParagraphTracked(env, s, target, l.para, l.clause, l.sub, l.rest);
    }
  }

  lemma QualifiedAgrees(env: Env, s: State, sc: Scan, l: Line)
    requires Inv(env, s) && Agrees(s, sc) && WellFormed(l) && l.Qualified? && s.article.Some?
    ensures Agrees(Step(env, s, l), ScanStep(sc, l))
  {
    var target := TargetArticle(s, ArticleToken(l.main, l.bis));
    QualifiedTracked(env, s, l, target);
    TargetToken(env, s, ArticleToken(l.main, l.bis));
    assert SameHead(s.slots[target].row, Step(env, s, l).slots[target].row);
    CurrentIsSome(env, s, sc);
  }

  /** A step that only appends text or makes paragraphs leaves the scan where it is. */
  lemma QuietAgrees(s: State, r: State, sc: Scan)
    requires Bounded(s) && Bounded(r) && Agrees(s, sc) && Tracked(s.slots, r.slots, [])
    requires r.chapter == s.chapter && r.article == s.article
    ensures Agrees(r, sc)
  {
    if s.article.Some? {
      assert SameHead(s.slots[s.article.value].row, r.slots[s.article.value].row);
    }
  }

  lemma TextAgrees(env: Env, s: State, sc: Scan, line: string)
    requires Inv(env, s) && Agrees(s, sc)
    ensures Agrees(TextStep(env, s, line), sc)
  {
    if s.article.Some? {
      var i := if s.clause.Some? then s.clause.value
               else if s.paragraph.Some? then s.paragraph.value else s.article.value;
      AppendTracked(env, s.slots, i, line);
      QuietAgrees(s, TextStep(env, s, line), sc);
    }
  }

  lemma SimpleAgrees(env: Env, s: State, sc: Scan, num: string, rest: string)
    requires Inv(env, s) && Agrees(s, sc) && s.article.Some? && IsDigits(num) && Trimmed(rest)
    ensures Agrees(SimpleStep(env, s, num, rest), sc)
  {
    var a := s.article.value;
    EnsureParagraphOk(env, s.slots, a, num, Some(rest));
    EnsureParagraphTracked(env, s.slots, a, num, Some(rest));
    var (slots, p) := EnsureParagraph(env, s.slots, a, num, Some(rest));
    AppendTracked(env, slots, p, rest);
    TrackedTrans(s.slots, slots, AppendAt(env, slots, p, rest), []);
    QuietAgrees(s, SimpleStep(env, s, num, rest), sc);
  }

  lemma ChapterAgrees(env: Env, s: State, sc: Scan, token: string, line: string)
    requires Inv(env, s) && Agrees(s, sc)
    ensures Agrees(ChapterStep(env, s, token, line),
                   Scan(true, sc.rootKids + 1, None, sc.seen, sc.keys + [Spell(ChapterPath(token))]))
  {
    PushTracked(s.slots, 0, ChapterRow(env, s.slots, token, line));
  }

  lemma ArticleAgrees(env: Env, s: State, sc: Scan, token: string, title: Option<string>, line: string)
    requires Inv(env, s) && Agrees(s, sc)
    ensures Agrees(ArticleStep(env, s, token, title, line),
                   Scan(sc.inChapter, if sc.inChapter then sc.rootKids else sc.rootKids + 1, Some(token),
                        sc.seen + {token}, sc.keys + [Spell(ArticlePath(token))]))
  {
    var row := ArticleRow(env, s, token, title, line);
    PushTracked(s.slots, ArticleParent(s), row);
    assert Push(s.slots, ArticleParent(s), row)[|s.slots|].row == row;
  }

  lemma AnnexAgrees(env: Env, s: State, sc: Scan, line: string)
    requires Inv(env, s) && Agrees(s, sc)
    ensures Agrees(AnnexStep(env, s, line),
                   Scan(sc.inChapter, if sc.inChapter then sc.rootKids else sc.rootKids + 1, None,
                        sc.seen, sc.keys + [Spell(AnnexPath(NatToString(sc.rootKids + 1)))]))
  {
    PushTracked(s.slots, ArticleParent(s), AnnexRow(env, s, line));
  }

  lemma StepAgrees(env: Env, s: State, sc: Scan, l: Line)
    requires Inv(env, s) && Agrees(s, sc) && WellFormed(l)
    ensures Agrees(Step(env, s, l), ScanStep(sc, l))
  {
    match l {
      case Chrome =>
      case Chapter(line, value, bis) => ChapterAgrees(env, s, sc, ArticleToken(NatToString(value), bis), line);
      case ArticleWord(line, value, title) => ArticleAgrees(env, s, sc, NatToString(value), title, line);
      case ArticleNumber(line, main, bis, title) => ArticleAgrees(env, s, sc, ArticleToken(main, bis), title, line);
      case Annex(line) => AnnexAgrees(env, s, sc, line);
      case Qualified(line, _, _, _, _, _, _) =>
        CurrentIsSome(env, s, sc);
        if s.article.Some? {
          QualifiedAgrees(env, s, sc, l);
        } else {
          TextAgrees(env, s, sc, line);
        }
      case Simple(line, num, rest) =>
        if s.article.Some? {
          SimpleAgrees(env, s, sc, num, rest);
        } else {
          TextAgrees(env, s, sc, line);
        }
      case Plain(line) => TextAgrees(env, s, sc, line);
    }
  }

  lemma CurrentIsSome(env: Env, s: State, sc: Scan)
    requires Inv(env, s) && Agrees(s, sc)
    ensures sc.current.Some? <==> s.article.Some?
  {
    if s.article.Some? {
      assert SlotOk(env, s.slots, s.article.value);
    }
  }

  /** The scan lists exactly the locators of the chapters, articles, annexes and sub-clauses. */
  lemma {:induction false} RunAgrees(env: Env, title: string, lines: seq<Line>)
    requires ValidEnv(env) && AllWellFormed(lines)
    ensures Agrees(Run(env, title, lines), ScanLines(lines))
    decreases |lines|
  {
    if lines != [] {
      var before := lines[..|lines| - 1];
      RunAgrees(env, title, before);
      RunInv(env, title, before);
      StepAgrees(env, Run(env, title, before), ScanLines(before), lines[|lines| - 1]);
    }
  }

  // ----- Distinct locators -----

  /** No two slots have the same locator. */
  ghost predicate DistinctLocators(slots: seq<Slot>) {
    forall i, j :: 0 <= i < j < |slots| ==> slots[i].row.sourceLocator != slots[j].row.sourceLocator
  }

  lemma NoRepeatsSnoc<T>(s: seq<T>, x: T)
    ensures NoRepeats(s + [x]) <==> NoRepeats(s) && x !in s
  {
    if NoRepeats(s + [x]) {
      assert forall i :: 0 <= i < |s| ==> s[i] == (s + [x])[i];
      assert (s + [x])[|s|] == x;
    }
  }

  ghost predicate DistinctKeys(slots: seq<Slot>, k: nat)
    requires k <= |slots|
  {
    forall i, j :: 0 <= i < j < k && IsKey(slots[i].row) && IsKey(slots[j].row) ==>
      slots[i].row.sourceLocator != slots[j].row.sourceLocator
  }

  lemma DistinctKeysSnoc(slots: seq<Slot>, k: nat)
    requires k < |slots|
    ensures DistinctKeys(slots, k + 1) <==>
            DistinctKeys(slots, k) && (IsKey(slots[k].row) ==> NewKey(slots, k))
  {
  }

  /** No earlier key slot has the locator of slot `k`. */
  ghost predicate NewKey(slots: seq<Slot>, k: nat)
    requires k < |slots|
  {
    forall i :: 0 <= i < k && IsKey(slots[i].row) ==> slots[i].row.sourceLocator != slots[k].row.sourceLocator
  }

  lemma KeyIsNew(slots: seq<Slot>, k: nat)
    requires k < |slots|
    ensures slots[k].row.sourceLocator !in Keys(slots, k) <==> NewKey(slots, k)
  {
    KeysMeaning(slots, k, slots[k].row.sourceLocator);
  }

  lemma {:induction false} KeysRepeat(slots: seq<Slot>, k: nat)
    requires k <= |slots|
    ensures NoRepeats(Keys(slots, k)) <==> DistinctKeys(slots, k)
  {
    if k > 0 {
      KeysRepeat(slots, k - 1);
      var l := slots[k - 1].row.sourceLocator;
      KeyIsNew(slots, k - 1);
      NoRepeatsSnoc(Keys(slots, k - 1), l);
      DistinctKeysSnoc(slots, k - 1);
      assert Keys(slots, k) == if IsKey(slots[k - 1].row) then Keys(slots, k - 1) + [l] else Keys(slots, k - 1);
    }
  }

  /** The path that a slot's type and numbers stand for. */
  function PathOf(slots: seq<Slot>, i: nat): (r: Path)
    requires i < |slots|
  {
    var row := slots[i].row;
    var or := (o: Option<string>) => match o case None => "" case Some(v) => v;
    match row.nodeType
    case CHAPTER => ChapterPath(or(row.chapter))
    case ARTICLE => ArticlePath(or(row.article))
    case PARAGRAPH => ParagraphPath(or(row.article), or(row.paragraph))
    case CLAUSE => ClausePath(or(row.article), or(row.paragraph), or(row.clause))
    case SUB_CLAUSE => SubClausePath(or(row.article), or(row.paragraph), or(row.clause), or(row.subClause))
    case ANNEX => AnnexPath(NatToString(|PushedUnder(slots, i, 0)| + 1))
    case _ => DocPath
  }

  /** In every reachable state each locator spells its node's own numbers. */
  lemma LocatorSpellsPath(env: Env, slots: seq<Slot>, i: nat)
    requires SlotsOk(env, slots) && i < |slots|
    ensures ValidPath(PathOf(slots, i)) && slots[i].row.sourceLocator == Spell(PathOf(slots, i))
  {
    assert SlotOk(env, slots, i);
  }

  lemma SameLocatorSamePath(env: Env, slots: seq<Slot>, i: nat, j: nat)
    requires SlotsOk(env, slots) && i < |slots| && j < |slots|
    requires slots[i].row.sourceLocator == slots[j].row.sourceLocator
    ensures PathOf(slots, i) == PathOf(slots, j) && slots[i].row.nodeType == slots[j].row.nodeType
  {
    LocatorSpellsPath(env, slots, i);
    LocatorSpellsPath(env, slots, j);
    SpellInjective(PathOf(slots, i), PathOf(slots, j));
    assert SlotOk(env, slots, i) && SlotOk(env, slots, j);
  }

  /** With distinct keys, a locator determines the slot that carries it. */
  lemma LocatorDeterminesSlot(env: Env, slots: seq<Slot>, i: nat, j: nat)
    requires SlotsOk(env, slots) && DistinctKeys(slots, |slots|) && i < |slots| && j < |slots|
    requires slots[i].row.sourceLocator == slots[j].row.sourceLocator
    ensures i == j
    decreases i
  {
    SameLocatorSamePath(env, slots, i, j);
    NonRootType(env, slots, i);
    NonRootType(env, slots, j);
    if slots[i].row.nodeType in {PARAGRAPH, CLAUSE} {
      var a, b := slots[i].parent, slots[j].parent;
      ChildOfParent(env, slots, i);
      ChildOfParent(env, slots, j);
      assert SlotOk(env, slots, a) && SlotOk(env, slots, b);
      LocatorDeterminesSlot(env, slots, a, b);
      assert LookupSiblings(slots[i], slots[j]) && LookupSiblings(slots[j], slots[i]);
      assert 0 < i && 0 < j;
    } else {
      assert SlotOk(env, slots, i);
      assert i == j || IsKey(slots[i].row);
    }
  }

  lemma DistinctWhenKeysAre(env: Env, slots: seq<Slot>)
    requires SlotsOk(env, slots)
    ensures DistinctLocators(slots) <==> DistinctKeys(slots, |slots|)
  {
    if DistinctKeys(slots, |slots|) {
      forall i, j | 0 <= i < j < |slots|
        ensures slots[i].row.sourceLocator != slots[j].row.sourceLocator
      {
        if slots[i].row.sourceLocator == slots[j].row.sourceLocator {
          LocatorDeterminesSlot(env, slots, i, j);
        }
      }
    }
  }

  /**
   Whatever the lines, and however often qualified lines jump back to earlier articles: all
   locators of the parsed tree are distinct if and only if the lines call for no locator twice.
   */
  lemma DistinctIffKeysDistinct(env: Env, title: string, lines: seq<Line>)
    requires ValidEnv(env) && AllWellFormed(lines)
    ensures DistinctLocators(Run(env, title, lines).slots) <==> NoRepeats(LocatorKeys(lines))
  {
    RunInv(env, title, lines);
    RunAgrees(env, title, lines);
    var slots := Run(env, title, lines).slots;
    DistinctWhenKeysAre(env, slots);
    KeysRepeat(slots, |slots|);
  }

  // ----- When annexes collide -----

  lemma {:induction false} RootChildrenCount(slots: seq<Slot>, i: nat, j: nat)
    requires 1 <= i <= j <= |slots|
    ensures |PushedUnder(slots, i, 0)| <= |PushedUnder(slots, j, 0)|
    ensures |PushedUnder(slots, i, 0)| == |PushedUnder(slots, j, 0)| <==>
              forall k :: i <= k < j ==> slots[k].parent != 0
    decreases j
  {
    if i < j {
      RootChildrenCount(slots, i, j - 1);
    }
  }

  /**
   Two annexes share a locator exactly when no child of the root was created from the first up
   to the second: they lie in one chapter, with no later chapter between them.
   */
  lemma AnnexesCollide(env: Env, slots: seq<Slot>, i: nat, j: nat)
    requires SlotsOk(env, slots) && i < j < |slots|
    requires slots[i].row.nodeType == ANNEX && slots[j].row.nodeType == ANNEX
    ensures slots[i].row.sourceLocator == slots[j].row.sourceLocator <==>
            forall k :: i <= k < j ==> slots[k].parent != 0
  {
    assert SlotOk(env, slots, i) && SlotOk(env, slots, j);
    var a, b := |PushedUnder(slots, i, 0)| + 1, |PushedUnder(slots, j, 0)| + 1;
    RootChildrenCount(slots, i, j);
    AnnexNumbers(a, b);
  }

  lemma AnnexNumbers(a: nat, b: nat)
    ensures Spell(AnnexPath(NatToString(a))) == Spell(AnnexPath(NatToString(b))) <==> a == b
  {
    var x, y := Spell(AnnexPath(NatToString(a))), Spell(AnnexPath(NatToString(b)));
    assert x == "annex-" + NatToString(a) && y == "annex-" + NatToString(b);
    if x == y {
      assert NatToString(a) == x[6..] && NatToString(b) == y[6..];
      NatToStringInjective(a, b);
    }
  }
}
