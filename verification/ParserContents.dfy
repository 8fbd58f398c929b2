/**
 What exactly every node's text is: the contents of the lines that landed on it, in order,
 without repeating what is there already.
 */
module ParserContents {
  import opened Prelude
  import opened LegalNodes
  import opened LocatorGrammar
  import opened ParserModel
  import opened ParserInvariants
  import opened ParserText

  /** The text of node `i`; a node that is not there yet has none. */
  function TextAt(slots: seq<Slot>, i: nat): (t: string) {
    if i < |slots| then slots[i].row.text else ""
  }

  /** From `a` to `b` the content has been added to the text of node `j`; all other texts are the same. */
  ghost predicate AddedAt(a: seq<Slot>, b: seq<Slot>, j: nat, content: string) {
    |a| <= |b| && j < |b| &&
    forall i: nat :: TextAt(b, i) == if i == j then JoinText(TextAt(a, i), content) else TextAt(a, i)
  }

  /** Every old and new text is the same, and a new one is empty. */
  ghost predicate SameTexts(a: seq<Slot>, b: seq<Slot>) {
    |a| <= |b| && forall i: nat :: TextAt(b, i) == TextAt(a, i)
  }

  lemma JoinItself(content: string)
    ensures JoinText("", content) == content && JoinText(content, content) == content
  {
    IncludesSuffix("", content);
    assert "" + content == content;
  }

  lemma PushAdds(slots: seq<Slot>, p: nat, row: FlatNode)
    requires InBounds(slots) && p < |slots|
    ensures AddedAt(slots, Push(slots, p, row), |slots|, row.text)
  {
    JoinItself(row.text);
  }

  lemma AppendAdds(env: Env, slots: seq<Slot>, i: nat, line: string)
    requires InBounds(slots) && SlotsOk(env, slots) && 0 < i < |slots| && Trimmed(line)
    ensures AddedAt(slots, AppendAt(env, slots, i, line), i, line)
  {
    assert SlotOk(env, slots, i);
    AppendTextMeaning(env, slots[i].row, line);
  }

  lemma AddedAfterSame(a: seq<Slot>, b: seq<Slot>, c: seq<Slot>, j: nat, content: string)
    requires SameTexts(a, b) && AddedAt(b, c, j, content)
    ensures AddedAt(a, c, j, content)
  {
    forall i: nat
      ensures TextAt(c, i) == if i == j then JoinText(TextAt(a, i), content) else TextAt(a, i)
    {
      assert TextAt(b, i) == TextAt(a, i);
    }
  }

  /** A content that is added twice to the same node is there once. */
  lemma AddedTwice(a: seq<Slot>, b: seq<Slot>, c: seq<Slot>, j: nat, content: string)
    requires (SameTexts(a, b) || (TextAt(a, j) == "" && AddedAt(a, b, j, content))) && AddedAt(b, c, j, content)
    ensures AddedAt(a, c, j, content)
  {
    JoinItself(content);
    forall i: nat
      ensures TextAt(c, i) == if i == j then JoinText(TextAt(a, i), content) else TextAt(a, i)
    {
      assert TextAt(c, i) == if i == j then JoinText(TextAt(b, i), content) else TextAt(b, i);
    }
  }

  /** Opening a paragraph adds nothing, or the given text to a new node. */
  lemma OpenParagraphAdds(env: Env, slots: seq<Slot>, a: nat, num: string, initial: Option<string>)
    requires InBounds(slots) && a < |slots|
    ensures var (r, p) := EnsureParagraph(env, slots, a, num, initial);
            SameTexts(slots, r) || (TextAt(slots, p) == "" && AddedAt(slots, r, p, TextOr(initial)))
  {
    PushAdds(slots, a, ParagraphRow(env, slots, a, num, TextOr(initial)));
  }

  lemma OpenClauseAdds(env: Env, slots: seq<Slot>, p: nat, num: string, initial: Option<string>)
    requires InBounds(slots) && p < |slots|
    ensures var (r, c) := EnsureClause(env, slots, p, num, initial);
            SameTexts(slots, r) || (TextAt(slots, c) == "" && AddedAt(slots, r, c, TextOr(initial)))
  {
    PushAdds(slots, p, ClauseRow(env, slots, p, num, TextOr(initial)));
  }

  /** Adding no content changes no text. */
  lemma NothingAdded(a: seq<Slot>, b: seq<Slot>, j: nat)
    requires AddedAt(a, b, j, "")
    ensures SameTexts(a, b)
  {
    forall i: nat
      ensures TextAt(b, i) == TextAt(a, i)
    {
      assert TextAt(b, i) == if i == j then JoinText(TextAt(a, i), "") else TextAt(a, i);
    }
  }

  lemma ParagraphAdds(env: Env, slots: seq<Slot>, a: nat, num: string, rest: string)
    requires InBounds(slots) && SlotsOk(env, slots) && a < |slots| && slots[a].row.nodeType == ARTICLE
    requires IsDigits(num) && Trimmed(rest)
    ensures var (r, p) := EnsureParagraph(env, slots, a, num, Some(rest));
            AddedAt(slots, AppendAt(env, r, p, rest), p, rest)
  {
    OpenParagraphAdds(env, slots, a, num, Some(rest));
    EnsureParagraphOk(env, slots, a, num, Some(rest));
    var (r, p) := EnsureParagraph(env, slots, a, num, Some(rest));
    AppendAdds(env, r, p, rest);
    AddedTwice(slots, r, AppendAt(env, r, p, rest), p, rest);
  }

  lemma ClauseAdds(env: Env, slots: seq<Slot>, p: nat, num: string, rest: string)
    requires InBounds(slots) && SlotsOk(env, slots) && p < |slots| && slots[p].row.nodeType == PARAGRAPH
    requires IsDigits(num) && Trimmed(rest)
    ensures var (r, c) := EnsureClause(env, slots, p, num, Some(rest));
            AddedAt(slots, AppendAt(env, r, c, rest), c, rest)
  {
    OpenClauseAdds(env, slots, p, num, Some(rest));
    EnsureClauseOk(env, slots, p, num, Some(rest));
    var (r, c) := EnsureClause(env, slots, p, num, Some(rest));
    AppendAdds(env, r, c, rest);
    AddedTwice(slots, r, AppendAt(env, r, c, rest), c, rest);
  }

  // ----- One line -----

  /** Below a paragraph that was opened without text: a clause, and perhaps a sub-clause, takes the content. */
  lemma BelowAdds(env: Env, slots: seq<Slot>, a: nat, p: nat, clause: string, sub: string, rest: string)
    requires InBounds(slots) && SlotsOk(env, slots) && a < |slots| && p < |slots| && slots[p].row.nodeType == PARAGRAPH
    requires IsDigits(clause) && Trimmed(rest)
    ensures var (r, c) := EnsureClause(env, slots, p, clause, None);
            var after := Push(r, c, SubClauseRow(env, r, a, p, c, clause, sub, rest));
            AddedAt(slots, after, |after| - 1, rest)
  {
    OpenClauseAdds(env, slots, p, clause, None);
    var (r, c) := EnsureClause(env, slots, p, clause, None);
    if !SameTexts(slots, r) {
      NothingAdded(slots, r, c);
    }
    PushAdds(r, c, SubClauseRow(env, r, a, p, c, clause, sub, rest));
    AddedAfterSame(slots, r, Push(r, c, SubClauseRow(env, r, a, p, c, clause, sub, rest)), |r|, rest);
  }

  /** A paragraph that is opened without text leaves all texts the same. */
  lemma OpenedEmpty(env: Env, slots: seq<Slot>, a: nat, num: string)
    requires InBounds(slots) && a < |slots|
    ensures SameTexts(slots, EnsureParagraph(env, slots, a, num, None).0)
  {
    OpenParagraphAdds(env, slots, a, num, None);
    var (r, p) := EnsureParagraph(env, slots, a, num, None);
    if !SameTexts(slots, r) {
      NothingAdded(slots, r, p);
    }
  }

  lemma ParagraphStepAdds(env: Env, s: State, target: nat, l: Line)
    requires Inv(env, s) && 0 < target < |s.slots| && s.slots[target].row.nodeType == ARTICLE
    requires WellFormed(l) && l.Qualified?
    ensures var r := ParagraphStep(env, s, target, l.para, l.clause, l.sub, l.rest);
            AddedAt(s.slots, r.slots, if NamesSubClause(l) then |r.slots| - 1 else Innermost(r).value, l.rest)
  {
    if l.clause.None? {
      ParagraphAdds(env, s.slots, target, l.para, l.rest);
    } else {
      OpenedEmpty(env, s.slots, target, l.para);
      EnsureParagraphOk(env, s.slots, target, l.para, None);
      var (slots1, p) := EnsureParagraph(env, s.slots, target, l.para, None);
      var r := ParagraphStep(env, s, target, l.para, l.clause, l.sub, l.rest);
      if l.sub.None? {
        ClauseAdds(env, slots1, p, l.clause.value, l.rest);
        AddedAfterSame(s.slots, slots1, r.slots, r.clause.value, l.rest);
      } else {
        BelowAdds(env, slots1, target, p, l.clause.value, l.sub.value, l.rest);
        AddedAfterSame(s.slots, slots1, r.slots, |r.slots| - 1, l.rest);
      }
    }
  }

  lemma QualifiedAdds(env: Env, s: State, l: Line)
    requires Inv(env, s) && WellFormed(l) && l.Qualified? && s.article.Some?
    ensures Landing(env, s, l).Some? && AddedAt(s.slots, Step(env, s, l).slots, Landing(env, s, l).value, l.rest)
  {
    var token := ArticleToken(l.main, l.bis);
    var target := TargetArticle(s, token);
    TargetIsArticle(env, s, token);
    var simple := if l.clause.None? then FindSimple(s.slots, s.slots[target].children, l.main, s.simple) else None;
    match simple {
      case Some(p) =>
        ChildFacts(env, s.slots, target, p);
        ClauseAdds(env, s.slots, p, l.para, l.rest);
      case None =>
        ParagraphStepAdds(env, s, target, l);
    }
  }

  lemma HeadingAdds(env: Env, s: State, l: Line)
    requires Inv(env, s) && (l.Chapter? || l.ArticleWord? || l.ArticleNumber? || l.Annex?)
    ensures Landing(env, s, l) == Some(|s.slots|)
    ensures AddedAt(s.slots, Step(env, s, l).slots, |s.slots|, Content(l))
  {
    match l {
      case Chapter(line, value, bis) =>
        PushAdds(s.slots, 0, ChapterRow(env, s.slots, ArticleToken(NatToString(value), bis), line));
      case ArticleWord(line, value, title) =>
        PushAdds(s.slots, ArticleParent(s), ArticleRow(env, s, NatToString(value), title, line));
      case ArticleNumber(line, main, bis, title) =>
        PushAdds(s.slots, ArticleParent(s), ArticleRow(env, s, ArticleToken(main, bis), title, line));
      case Annex(line) =>
        PushAdds(s.slots, ArticleParent(s), AnnexRow(env, s, line));
    }
  }

  /**
   One line: exactly its content is added to the text of the node it lands on, and no other text
   changes. In particular a node that the line creates has exactly that content.
   */
  lemma StepAdds(env: Env, s: State, l: Line)
    requires Inv(env, s) && WellFormed(l)
    ensures match Landing(env, s, l)
            case None => SameTexts(s.slots, Step(env, s, l).slots)
            case Some(j) => AddedAt(s.slots, Step(env, s, l).slots, j, Content(l))
  {
    if !Kept(s, l) {
      DroppedLineChangesNothing(env, s, l);
    } else {
      match l {
        case Qualified(_, _, _, _, _, _, _) => QualifiedAdds(env, s, l);
        case Simple(_, num, rest) => ParagraphAdds(env, s.slots, s.article.value, num, rest);
        case Plain(line) => AppendAdds(env, s.slots, Innermost(s).value, line);
        case _ => HeadingAdds(env, s, l);
      }
    }
  }

  // ----- Whole runs -----

  /** The text of node `i` after some lines, from where the lines land. */
  function TextFrom(env: Env, title: string, lines: seq<Line>, i: nat): (t: string)
    decreases |lines|
  {
    if lines == [] then (if i == 0 then title else "")
    else
      var before, last := lines[..|lines| - 1], lines[|lines| - 1];
      var t := TextFrom(env, title, before, i);
      if Landing(env, Run(env, title, before), last) == Some(i) then JoinText(t, Content(last)) else t
  }

  /**
   After every sequence of lines the text of each node is made of the contents of the lines that
   landed on it, in order, each separated by a blank and none repeated that was there already.
   */
  lemma {:induction false} RunTexts(env: Env, title: string, lines: seq<Line>, i: nat)
    requires ValidEnv(env) && AllWellFormed(lines)
    ensures TextAt(Run(env, title, lines).slots, i) == TextFrom(env, title, lines, i)
    decreases |lines|
  {
    if lines != [] {
      var before, last := lines[..|lines| - 1], lines[|lines| - 1];
      RunTexts(env, title, before, i);
      RunInv(env, title, before);
      StepAdds(env, Run(env, title, before), last);
    }
  }

  // ----- Titles -----

  /** The title that a heading gives to the node it opens; other lines give none. */
  function TitleOf(l: Line): (t: Option<string>) {
    match l
    case Chapter(line, _, _) => Some(line)
    case ArticleWord(_, value, title) =>
      Some(if title.Some? && title.value != "" then title.value else "Article " + NatToString(value))
    case ArticleNumber(_, main, bis, title) =>
      Some(if title.Some? && title.value != "" then title.value
           else "Article " + if bis.Some? then main + "^" + bis.value else main)
    case Annex(line) => Some(if |line| > 120 then line[..120] else line)
    case _ => None
  }

  /** Old titles are kept, and nodes that are new have this one. */
  ghost predicate Titled(a: seq<Slot>, b: seq<Slot>, title: Option<string>) {
    |a| <= |b| && forall i :: 0 <= i < |b| ==> b[i].row.title == if i < |a| then a[i].row.title else title
  }

  lemma OpenTitles(env: Env, slots: seq<Slot>, p: nat, num: string, initial: Option<string>)
    requires InBounds(slots) && p < |slots|
    ensures Titled(slots, EnsureParagraph(env, slots, p, num, initial).0, None)
    ensures Titled(slots, EnsureClause(env, slots, p, num, initial).0, None)
  {
  }

  lemma AppendTitles(env: Env, slots: seq<Slot>, i: nat, line: string, title: Option<string>)
    requires InBounds(slots) && i < |slots|
    ensures Titled(slots, AppendAt(env, slots, i, line), title)
  {
  }

  lemma TitledTrans(a: seq<Slot>, b: seq<Slot>, c: seq<Slot>, title: Option<string>)
    requires Titled(a, b, title) && Titled(b, c, title)
    ensures Titled(a, c, title)
  {
  }

  lemma BodyTitles(env: Env, s: State, target: nat, para: string, clause: Option<string>, sub: Option<string>,
                   rest: string)
    requires Bounded(s) && target < |s.slots|
    ensures Titled(s.slots, ParagraphStep(env, s, target, para, clause, sub, rest).slots, None)
  {
    var initial := if clause.Some? then None else Some(rest);
    OpenTitles(env, s.slots, target, para, initial);
    var (slots1, p) := EnsureParagraph(env, s.slots, target, para, initial);
    if clause.None? {
      AppendTitles(env, slots1, p, rest, None);
    } else {
      BelowTitles(env, s, slots1, target, p, clause.value, sub, rest);
    }
  }

  lemma BelowTitles(env: Env, s: State, slots: seq<Slot>, target: nat, p: nat, clause: string, sub: Option<string>,
                    rest: string)
    requires InBounds(slots) && p < |slots| && target < |slots| && Titled(s.slots, slots, None)
    ensures var (after, c) := EnsureClause(env, slots, p, clause, if sub.Some? then None else Some(rest));
            Titled(s.slots, if sub.None? then AppendAt(env, after, c, rest)
                            else Push(after, c, SubClauseRow(env, after, target, p, c, clause, sub.value, rest)), None)
  {
    var initial := if sub.Some? then None else Some(rest);
    OpenTitles(env, slots, p, clause, initial);
    var (after, c) := EnsureClause(env, slots, p, clause, initial);
    TitledTrans(s.slots, slots, after, None);
    AppendTitles(env, after, c, rest, None);
  }

  lemma ClauseTitles(env: Env, s: State, target: nat, p: nat, num: string, rest: string)
    requires Bounded(s) && target < |s.slots| && p < |s.slots|
    ensures Titled(s.slots, SimpleClauseStep(env, s, target, p, num, rest).slots, None)
  {
  }

  lemma PushTitles(slots: seq<Slot>, p: nat, row: FlatNode)
    requires InBounds(slots) && p < |slots|
    ensures Titled(slots, Push(slots, p, row), row.title)
  {
  }

  lemma HeadingTitles(env: Env, s: State, l: Line)
    requires Bounded(s) && (l.Chapter? || l.ArticleWord? || l.ArticleNumber? || l.Annex?)
    ensures Titled(s.slots, Step(env, s, l).slots, TitleOf(l))
  {
    match l {
      case Chapter(line, value, bis) =>
        PushTitles(s.slots, 0, ChapterRow(env, s.slots, ArticleToken(NatToString(value), bis), line));
      case ArticleWord(line, value, title) =>
        PushTitles(s.slots, ArticleParent(s), ArticleRow(env, s, NatToString(value), title, line));
      case ArticleNumber(line, main, bis, title) =>
        PushTitles(s.slots, ArticleParent(s), ArticleRow(env, s, ArticleToken(main, bis), title, line));
      case Annex(line) =>
        PushTitles(s.slots, ArticleParent(s), AnnexRow(env, s, line));
    }
  }

  lemma QualifiedTitles(env: Env, s: State, l: Line)
    requires Bounded(s) && l.Qualified? && s.article.Some?
    ensures Titled(s.slots, Step(env, s, l).slots, None)
  {
    var target := TargetArticle(s, ArticleToken(l.main, l.bis));
    var simple := if l.clause.None? then FindSimple(s.slots, s.slots[target].children, l.main, s.simple) else None;
    match simple {
      case Some(p) => ClauseTitles(env, s, target, p, l.para, l.rest);
      case None => BodyTitles(env, s, target, l.para, l.clause, l.sub, l.rest);
    }
  }

  lemma SimpleTitles(env: Env, s: State, num: string, rest: string)
    requires Bounded(s) && s.article.Some?
    ensures Titled(s.slots, SimpleStep(env, s, num, rest).slots, None)
  {
    OpenTitles(env, s.slots, s.article.value, num, Some(rest));
    var (slots, p) := EnsureParagraph(env, s.slots, s.article.value, num, Some(rest));
    AppendTitles(env, slots, p, rest, None);
  }

  lemma TextTitles(env: Env, s: State, line: string)
    requires Bounded(s)
    ensures Titled(s.slots, TextStep(env, s, line).slots, None)
  {
    var c := if s.clause.Some? then s.clause else if s.paragraph.Some? then s.paragraph else s.article;
    if c.Some? {
      AppendTitles(env, s.slots, c.value, line, None);
    }
  }

  /** One line: old nodes keep their titles, and the node that a heading opens has the heading's. */
  lemma StepTitles(env: Env, s: State, l: Line)
    requires Bounded(s)
    ensures Titled(s.slots, Step(env, s, l).slots, TitleOf(l))
  {
    match l {
      case Chrome =>
      case Qualified(line, _, _, _, _, _, _) =>
        if s.article.Some? {
          QualifiedTitles(env, s, l);
        } else {
          TextTitles(env, s, line);
        }
      case Simple(line, num, rest) =>
        if s.article.Some? {
          SimpleTitles(env, s, num, rest);
        } else {
          TextTitles(env, s, line);
        }
      case Plain(line) => TextTitles(env, s, line);
      case _ => HeadingTitles(env, s, l);
    }
  }

  /** The title of node `i` after some lines: the title of the document, or of the line that opened the node. */
  function TitleFrom(env: Env, title: string, lines: seq<Line>, i: nat): (t: Option<string>)
    decreases |lines|
  {
    if lines == [] then Some(title)
    else
      var before, last := lines[..|lines| - 1], lines[|lines| - 1];
      if i < |Run(env, title, before).slots| then TitleFrom(env, title, before, i) else TitleOf(last)
  }

  /** After every sequence of lines each node has the title that the line which opened it gave. */
  lemma {:induction false} RunTitles(env: Env, title: string, lines: seq<Line>, i: nat)
    requires i < |Run(env, title, lines).slots|
    ensures Run(env, title, lines).slots[i].row.title == TitleFrom(env, title, lines, i)
    decreases |lines|
  {
    if lines != [] {
      var before, last := lines[..|lines| - 1], lines[|lines| - 1];
      StepTitles(env, Run(env, title, before), last);
      if i < |Run(env, title, before).slots| {
        RunTitles(env, title, before, i);
      }
    }
  }

  /** After every sequence of lines each node carries the hash of its own locator and final text. */
  lemma RunHashes(env: Env, title: string, lines: seq<Line>, i: nat)
    requires ValidEnv(env) && AllWellFormed(lines) && i < |Run(env, title, lines).slots|
    ensures var row := Run(env, title, lines).slots[i].row;
            row.contentHash == env.sha(row.sourceLocator + ":" + row.text)
  {
    RunInv(env, title, lines);
    assert SlotOk(env, Run(env, title, lines).slots, i);
  }
}
