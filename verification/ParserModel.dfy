/**
 The law-text parser as a state machine over classified lines.

 Node objects are numbered in the order in which they are created; a slot holds a node's
 current row, the numbers of its children, and the number of the node it was pushed under.
 `LegalInfoParser.Parser` is proved to follow these steps on linked mutable objects.
 */
module ParserModel {
  import opened Prelude
  import opened LegalNodes
  import opened LocatorGrammar

  /**
   A line after classification by the line patterns, in the order the parser tries them,
   with the pieces that the pattern captured. `rest` is the trimmed text after the number.
   */
  datatype Line =
    | Chrome
    | Chapter(line: string, value: nat, bis: Option<string>)
    | ArticleWord(line: string, value: nat, title: Option<string>)
    | ArticleNumber(line: string, main: string, bis: Option<string>, title: Option<string>)
    | Annex(line: string)
    | Qualified(line: string, main: string, bis: Option<string>, para: string,
                clause: Option<string>, sub: Option<string>, rest: string)
    | Simple(line: string, num: string, rest: string)
    | Plain(line: string)

  /** What the patterns guarantee about the captured pieces, and line extraction about texts. */
  ghost predicate WellFormed(l: Line) {
    match l
    case Chrome => true
    case Chapter(line, value, bis) => Trimmed(line) && value > 0 && (bis.Some? ==> IsDigits(bis.value))
    case ArticleWord(line, value, title) => Trimmed(line) && value > 0
    case ArticleNumber(line, main, bis, title) =>
      Trimmed(line) && (bis.Some? ==> IsDigits(bis.value)) && IsHeadingNumber(main)
    case Annex(line) => Trimmed(line)
    case Qualified(line, main, bis, para, clause, sub, rest) =>
      Trimmed(line) && Trimmed(rest) && IsDigits(main) && IsDigits(para) &&
      (bis.Some? ==> IsDigits(bis.value)) && (clause.Some? ==> IsDigits(clause.value)) &&
      (sub.Some? ==> IsDigits(sub.value))
    case Simple(line, num, rest) => Trimmed(line) && Trimmed(rest) && IsDigits(num)
    case Plain(line) => Trimmed(line)
  }

  /** `\d+` or `\d+\.\d+`. */
  ghost predicate IsHeadingNumber(main: string) {
    exists head, minor :: IsCompoundToken(main, head, minor, None)
  }

  /** Fresh ids and the content hash: the parser's outside world. */
  datatype Env = Env(versionId: string, freshId: nat -> string, sha: string -> string)

  ghost predicate ValidEnv(env: Env) {
    (forall i: nat, j: nat :: env.freshId(i) == env.freshId(j) ==> i == j) &&
    (forall i: nat :: env.freshId(i) != "") &&
    (forall s :: !Blank(env.sha(s)))
  }

  function HashOf(env: Env, locator: string, text: string): (r: string) {
    env.sha(locator + ":" + text)
  }

  datatype Slot = Slot(row: FlatNode, children: seq<nat>, parent: nat)

  datatype State = State(
    slots: seq<Slot>,
    chapter: Option<nat>,
    article: Option<nat>,
    paragraph: Option<nat>,
    clause: Option<nat>,
    simple: set<string>)

  /** Every number stored in the state denotes a slot. */
  ghost predicate InBounds(slots: seq<Slot>) {
    slots != [] && forall i, k :: 0 <= i < |slots| && 0 <= k < |slots[i].children| ==> slots[i].children[k] < |slots|
  }

  ghost predicate CursorIn(c: Option<nat>, slots: seq<Slot>) {
    c.Some? ==> c.value < |slots|
  }

  ghost predicate Bounded(s: State) {
    InBounds(s.slots) && CursorIn(s.chapter, s.slots) && CursorIn(s.article, s.slots) &&
    CursorIn(s.paragraph, s.slots) && CursorIn(s.clause, s.slots)
  }

  // ----- Rows -----

  /** The numbers that a new node carries. */
  datatype Numbers = Numbers(
    chapter: Option<string>, article: Option<string>, paragraph: Option<string>,
    clause: Option<string>, subClause: Option<string>, number: Option<string>)

  const NO_NUMBERS := Numbers(None, None, None, None, None, None)

  function MakeRow(env: Env, index: nat, parent: Option<string>, nodeType: NodeType, locator: string,
                   title: Option<string>, text: string, n: Numbers): (r: FlatNode)
  {
    FlatNode(env.freshId(index), env.versionId, parent, nodeType, n.chapter, n.article, n.paragraph,
             n.clause, n.subClause, n.number, title, locator, text, HashOf(env, locator, text))
  }

  /** `appendText`: nothing for an empty line, no repeats, separated by one space. */
  function AppendText(env: Env, row: FlatNode, line: string): (r: FlatNode) {
    if line == "" then row
    else
      var text :=
        if row.text == "" then line
        else if !Includes(row.text, line) then Trim(row.text + " " + line)
        else row.text;
      row.(text := text, contentHash := HashOf(env, row.sourceLocator, text))
  }

  // ----- Changes to the slots -----

  /** A new node is created and pushed at the end of its parent's children. */
  function Push(slots: seq<Slot>, parent: nat, row: FlatNode): (r: seq<Slot>)
    requires InBounds(slots) && parent < |slots|
    ensures InBounds(r) && |r| == |slots| + 1
  {
    var r := slots[parent := slots[parent].(children := slots[parent].children + [|slots|])] + [Slot(row, [], parent)];
    assert forall i, k :: 0 <= i < |r| && 0 <= k < |r[i].children| ==>
      r[i].children[k] == |slots| ||
      (i < |slots| && k < |slots[i].children| && r[i].children[k] == slots[i].children[k]);
    r
  }

  function AppendAt(env: Env, slots: seq<Slot>, i: nat, line: string): (r: seq<Slot>)
    requires InBounds(slots) && i < |slots|
    ensures InBounds(r) && |r| == |slots|
  {
    var r := slots[i := slots[i].(row := AppendText(env, slots[i].row, line))];
    assert forall j :: 0 <= j < |r| ==> r[j].children == slots[j].children;
    r
  }

  /** `children.find(node => node.sourceLocator === locator)`. */
  function FindByLocator(slots: seq<Slot>, kids: seq<nat>, locator: string): (r: Option<nat>)
    requires forall k :: 0 <= k < |kids| ==> kids[k] < |slots|
    ensures r.Some? ==> r.value in kids && r.value < |slots| && slots[r.value].row.sourceLocator == locator
    ensures r.None? ==> forall k :: 0 <= k < |kids| ==> slots[kids[k]].row.sourceLocator != locator
    decreases |kids|
  {
    if kids == [] then None
    else if slots[kids[0]].row.sourceLocator == locator then Some(kids[0])
    else FindByLocator(slots, kids[1..], locator)
  }

  predicate IsArticle(row: FlatNode, token: string) {
    row.nodeType == ARTICLE && row.article == Some(token)
  }

  /** The first ARTICLE with this token among some children. */
  function FindArticleAmong(slots: seq<Slot>, kids: seq<nat>, token: string): (r: Option<nat>)
    requires forall k :: 0 <= k < |kids| ==> kids[k] < |slots|
    ensures r.Some? ==> r.value in kids && r.value < |slots| && IsArticle(slots[r.value].row, token)
    ensures r.None? ==> forall k :: 0 <= k < |kids| ==> !IsArticle(slots[kids[k]].row, token)
    decreases |kids|
  {
    if kids == [] then None
    else if IsArticle(slots[kids[0]].row, token) then Some(kids[0])
    else FindArticleAmong(slots, kids[1..], token)
  }

  /** `findArticle`: over the root's children, looking inside chapters on the way. */
  function FindArticle(slots: seq<Slot>, kids: seq<nat>, token: string): (r: Option<nat>)
    requires InBounds(slots) && forall k :: 0 <= k < |kids| ==> kids[k] < |slots|
    ensures r.Some? ==> r.value < |slots| && IsArticle(slots[r.value].row, token)
    ensures r.None? ==> forall k :: 0 <= k < |kids| ==>
              !IsArticle(slots[kids[k]].row, token) &&
              (slots[kids[k]].row.nodeType == CHAPTER ==>
                forall j :: 0 <= j < |slots[kids[k]].children| ==>
                  !IsArticle(slots[slots[kids[k]].children[j]].row, token))
    decreases |kids|
  {
    if kids == [] then None
    else if IsArticle(slots[kids[0]].row, token) then Some(kids[0])
    else
      var inside := if slots[kids[0]].row.nodeType == CHAPTER
                    then FindArticleAmong(slots, slots[kids[0]].children, token) else None;
      if inside.Some? then inside else FindArticle(slots, kids[1..], token)
  }

  /** The first PARAGRAPH numbered `num` that a simple numbered line created. */
  function FindSimple(slots: seq<Slot>, kids: seq<nat>, num: string, simple: set<string>): (r: Option<nat>)
    requires forall k :: 0 <= k < |kids| ==> kids[k] < |slots|
    ensures r.Some? ==> r.value in kids && r.value < |slots|
    ensures r.Some? ==> slots[r.value].row.nodeType == PARAGRAPH && slots[r.value].row.paragraph == Some(num)
    decreases |kids|
  {
    if kids == [] then None
    else if slots[kids[0]].row.nodeType == PARAGRAPH && slots[kids[0]].row.paragraph == Some(num) &&
            slots[kids[0]].row.sourceLocator in simple then Some(kids[0])
    else FindSimple(slots, kids[1..], num, simple)
  }

  function TextOr(t: Option<string>): (r: string) {
    match t case None => "" case Some(s) => s
  }

  function ParagraphRow(env: Env, slots: seq<Slot>, article: nat, num: string, text: string): (r: FlatNode)
    requires article < |slots|
  {
    var up := slots[article].row;
    MakeRow(env, |slots|, Some(up.id), PARAGRAPH, up.sourceLocator + "/p-" + num, None, text,
            NO_NUMBERS.(article := up.article, paragraph := Some(num), number := Some(num)))
  }

  /** `ensureParagraph`: reuse the child with this locator, or push a new one. */
  function EnsureParagraph(env: Env, slots: seq<Slot>, article: nat, num: string, initial: Option<string>)
    : (r: (seq<Slot>, nat))
    requires InBounds(slots) && article < |slots|
    ensures InBounds(r.0) && r.1 < |r.0| && |slots| <= |r.0|
  {
    match FindByLocator(slots, slots[article].children, slots[article].row.sourceLocator + "/p-" + num)
    case Some(i) => (slots, i)
    case None => (Push(slots, article, ParagraphRow(env, slots, article, num, TextOr(initial))), |slots|)
  }

  function ClauseRow(env: Env, slots: seq<Slot>, paragraph: nat, num: string, text: string): (r: FlatNode)
    requires paragraph < |slots|
  {
    var up := slots[paragraph].row;
    MakeRow(env, |slots|, Some(up.id), CLAUSE, up.sourceLocator + "/c-" + num, None, text,
            NO_NUMBERS.(article := up.article, paragraph := up.paragraph, clause := Some(num), number := Some(num)))
  }

  /** `ensureClause`. */
  function EnsureClause(env: Env, slots: seq<Slot>, paragraph: nat, num: string, initial: Option<string>)
    : (r: (seq<Slot>, nat))
    requires InBounds(slots) && paragraph < |slots|
    ensures InBounds(r.0) && r.1 < |r.0| && |slots| <= |r.0|
  {
    match FindByLocator(slots, slots[paragraph].children, slots[paragraph].row.sourceLocator + "/c-" + num)
    case Some(i) => (slots, i)
    case None => (Push(slots, paragraph, ClauseRow(env, slots, paragraph, num, TextOr(initial))), |slots|)
  }

  // ----- One line -----

  function ArticleToken(main: string, bis: Option<string>): (r: string) {
    match bis case None => main case Some(b) => main + "^" + b
  }

  function ArticleParent(s: State): (r: nat) {
    match s.chapter case Some(c) => c case None => 0
  }

  function ChapterRow(env: Env, slots: seq<Slot>, token: string, line: string): (r: FlatNode)
    requires slots != []
  {
    MakeRow(env, |slots|, Some(slots[0].row.id), CHAPTER, "ch-" + token, Some(line), line,
            NO_NUMBERS.(chapter := Some(token), number := Some(token)))
  }

  function ChapterStep(env: Env, s: State, token: string, line: string): (r: State)
    requires Bounded(s)
    ensures Bounded(r)
  {
    State(Push(s.slots, 0, ChapterRow(env, s.slots, token, line)), Some(|s.slots|), None, None, None, s.simple)
  }

  function ArticleRow(env: Env, s: State, token: string, title: Option<string>, line: string): (r: FlatNode)
    requires Bounded(s)
  {
    var up := s.slots[ArticleParent(s)].row;
    var shown := if Truthy(title) then title.value else "Article " + token;
    MakeRow(env, |s.slots|, Some(up.id), ARTICLE, "art-" + token, Some(shown), line,
            NO_NUMBERS.(article := Some(token), number := Some(token),
                        chapter := match s.chapter case Some(c) => s.slots[c].row.chapter case None => None))
  }

  function ArticleStep(env: Env, s: State, token: string, title: Option<string>, line: string): (r: State)
    requires Bounded(s)
    ensures Bounded(r)
  {
    State(Push(s.slots, ArticleParent(s), ArticleRow(env, s, token, title, line)),
          s.chapter, Some(|s.slots|), None, None, s.simple)
  }

  function AnnexRow(env: Env, s: State, line: string): (r: FlatNode)
    requires Bounded(s)
  {
    MakeRow(env, |s.slots|, Some(s.slots[ArticleParent(s)].row.id), ANNEX,
            "annex-" + NatToString(|s.slots[0].children| + 1),
            Some(if |line| <= 120 then line else line[..120]), line, NO_NUMBERS)
  }

  function AnnexStep(env: Env, s: State, line: string): (r: State)
    requires Bounded(s)
    ensures Bounded(r)
  {
    State(Push(s.slots, ArticleParent(s), AnnexRow(env, s, line)), s.chapter, None, None, None, s.simple)
  }

  /** The article that a qualified line belongs to: the one it names if there is one, else the current one. */
  function TargetArticle(s: State, token: string): (r: nat)
    requires Bounded(s) && s.article.Some?
    ensures r < |s.slots|
  {
    var located := FindArticle(s.slots, s.slots[0].children, token);
    if s.slots[s.article.value].row.article == Some(token) || located.None? then s.article.value
    else located.value
  }

  function SubClauseRow(env: Env, slots: seq<Slot>, article: nat, paragraph: nat, clause: nat,
                        clauseNum: string, num: string, text: string): (r: FlatNode)
    requires article < |slots| && paragraph < |slots| && clause < |slots|
  {
    MakeRow(env, |slots|, Some(slots[clause].row.id), SUB_CLAUSE, slots[clause].row.sourceLocator + "/sc-" + num,
            None, text,
            NO_NUMBERS.(article := slots[article].row.article, paragraph := slots[paragraph].row.paragraph,
                        clause := Some(clauseNum), subClause := Some(num), number := Some(num)))
  }

  /** `N.M` read as clause M of the simple paragraph N. */
  function SimpleClauseStep(env: Env, s: State, target: nat, paragraph: nat, num: string, rest: string): (r: State)
    requires Bounded(s) && target < |s.slots| && paragraph < |s.slots|
    ensures Bounded(r)
  {
    var (slots, c) := EnsureClause(env, s.slots, paragraph, num, Some(rest));
    State(AppendAt(env, slots, c, rest), s.chapter, Some(target), Some(paragraph), Some(c), s.simple)
  }

  /** `N.M`, `N.M.K` and `N.M.K.S` read as paragraph M and below of article N. */
  function ParagraphStep(env: Env, s: State, target: nat, para: string,
                         clause: Option<string>, sub: Option<string>, rest: string): (r: State)
    requires Bounded(s) && target < |s.slots|
    ensures Bounded(r)
  {
    var (slots1, p) := EnsureParagraph(env, s.slots, target, para, if clause.Some? then None else Some(rest));
    if clause.None? then
      State(AppendAt(env, slots1, p, rest), s.chapter, Some(target), Some(p), None, s.simple)
    else
      var (slots2, c) := EnsureClause(env, slots1, p, clause.value, if sub.Some? then None else Some(rest));
      if sub.None? then
        State(AppendAt(env, slots2, c, rest), s.chapter, Some(target), Some(p), Some(c), s.simple)
      else
        State(Push(slots2, c, SubClauseRow(env, slots2, target, p, c, clause.value, sub.value, rest)),
              s.chapter, Some(target), Some(p), Some(c), s.simple)
  }

  function QualifiedStep(env: Env, s: State, token: string, main: string, para: string,
                         clause: Option<string>, sub: Option<string>, rest: string): (r: State)
    requires Bounded(s) && s.article.Some?
    ensures Bounded(r)
  {
    var target := TargetArticle(s, token);
    var simple := if clause.None? then FindSimple(s.slots, s.slots[target].children, main, s.simple) else None;
    match simple
    case Some(p) => SimpleClauseStep(env, s, target, p, para, rest)
    case None => ParagraphStep(env, s, target, para, clause, sub, rest)
  }

  function SimpleStep(env: Env, s: State, num: string, rest: string): (r: State)
    requires Bounded(s) && s.article.Some?
    ensures Bounded(r)
  {
    var (slots, p) := EnsureParagraph(env, s.slots, s.article.value, num, Some(rest));
    State(AppendAt(env, slots, p, rest), s.chapter, s.article, Some(p), None,
          s.simple + {slots[p].row.sourceLocator})
  }

  /** A line that starts nothing: it continues the innermost open node, if any. */
  function TextStep(env: Env, s: State, line: string): (r: State)
    requires Bounded(s)
    ensures Bounded(r)
  {
    if s.clause.Some? then s.(slots := AppendAt(env, s.slots, s.clause.value, line))
    else if s.paragraph.Some? then s.(slots := AppendAt(env, s.slots, s.paragraph.value, line))
    else if s.article.Some? then s.(slots := AppendAt(env, s.slots, s.article.value, line))
    else s
  }

  function Step(env: Env, s: State, l: Line): (r: State)
    requires Bounded(s)
    ensures Bounded(r)
  {
    match l
    case Chrome => s
    case Chapter(line, value, bis) => ChapterStep(env, s, ArticleToken(NatToString(value), bis), line)
    case ArticleWord(line, value, title) => ArticleStep(env, s, NatToString(value), title, line)
    case ArticleNumber(line, main, bis, title) => ArticleStep(env, s, ArticleToken(main, bis), title, line)
    case Annex(line) => AnnexStep(env, s, line)
    case Qualified(line, main, bis, para, clause, sub, rest) =>
      if s.article.Some? then QualifiedStep(env, s, ArticleToken(main, bis), main, para, clause, sub, rest)
      else TextStep(env, s, line)
    case Simple(line, num, rest) =>
      if s.article.Some? then SimpleStep(env, s, num, rest) else TextStep(env, s, line)
    case Plain(line) => TextStep(env, s, line)
  }

  /** Before the first line there is only the document root. */
  function Start(env: Env, title: string): (r: State)
    ensures Bounded(r)
  {
    State([Slot(MakeRow(env, 0, None, DOCUMENT, "doc", Some(title), title, NO_NUMBERS), [], 0)],
          None, None, None, None, {})
  }

  function Run(env: Env, title: string, lines: seq<Line>): (r: State)
    ensures Bounded(r)
    decreases |lines|
  {
    if lines == [] then Start(env, title)
    else Step(env, Run(env, title, lines[..|lines| - 1]), lines[|lines| - 1])
  }
}
