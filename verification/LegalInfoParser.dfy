/**
 The parse loop on linked node objects. It keeps four cursors and a set of locators,
 appends text to nodes in place and pushes new nodes into their parents' children.
 Each method is proved to do to the objects what `ParserModel` does to the slots.
 */
module LegalInfoParser {
  import opened Prelude
  import opened LegalNodes
  import opened Hierarchy
  import opened LocatorGrammar
  import opened ParserModel
  import opened ParserInvariants
  import opened ParserTree

  function ObjectsAt(objs: seq<LegalNode>, indices: seq<nat>): (r: seq<LegalNode>)
    requires forall k :: 0 <= k < |indices| ==> indices[k] < |objs|
    ensures |r| == |indices| && forall k :: 0 <= k < |r| ==> r[k] == objs[indices[k]]
  {
    seq(|indices|, k requires 0 <= k < |indices| => objs[indices[k]])
  }

  /** Object `i` holds the row of slot `i` and is linked to the objects of its children. */
  ghost predicate MirrorsAt(objs: seq<LegalNode>, slots: seq<Slot>, i: nat)
    requires |objs| == |slots| && InBounds(slots) && i < |slots|
    reads objs
  {
    objs[i].Row() == slots[i].row && objs[i].children == ObjectsAt(objs, slots[i].children)
  }

  ghost predicate Mirrors(objs: seq<LegalNode>, slots: seq<Slot>)
    reads objs
  {
    |objs| == |slots| && InBounds(slots) && NoRepeats(objs) &&
    forall i :: 0 <= i < |slots| ==> MirrorsAt(objs, slots, i)
  }

  method AppendTextTo(env: Env, ghost objs: seq<LegalNode>, ghost slots: seq<Slot>, ghost i: nat,
                      node: LegalNode, line: string)
    requires Mirrors(objs, slots) && i < |objs| && objs[i] == node
    modifies node
    ensures Mirrors(objs, AppendAt(env, slots, i, line))
  {
    assert MirrorsAt(objs, slots, i);
    if line != "" {
      if node.text == "" {
        node.text := line;
      } else if !Includes(node.text, line) {
        node.text := Trim(node.text + " " + line);
      }
      node.contentHash := HashOf(env, node.head.sourceLocator, node.text);
    }
    ghost var after := AppendAt(env, slots, i, line);
    forall j | 0 <= j < |after|
      ensures MirrorsAt(objs, after, j)
    {
      assert old(MirrorsAt(objs, slots, j));
    }
  }

  method PushNode(ghost objs: seq<LegalNode>, ghost slots: seq<Slot>, ghost p: nat,
                  parent: LegalNode, row: FlatNode) returns (node: LegalNode, ghost objs': seq<LegalNode>)
    requires Mirrors(objs, slots) && p < |objs| && objs[p] == parent
    modifies parent
    ensures fresh(node) && objs' == objs + [node] && Mirrors(objs', Push(slots, p, row))
  {
    node := new LegalNode(row);
    assert node !in objs;
    parent.children := parent.children + [node];
    objs' := objs + [node];
    ghost var after := Push(slots, p, row);
    forall j | 0 <= j < |after|
      ensures MirrorsAt(objs', after, j)
    {
      if j < |slots| {
        assert old(MirrorsAt(objs, slots, j));
        assert j != p ==> objs[j] != objs[p];
      }
    }
  }

  method FindChild(ghost objs: seq<LegalNode>, ghost slots: seq<Slot>, ghost kids: seq<nat>,
                   children: seq<LegalNode>, locator: string) returns (found: LegalNode?)
    requires Mirrors(objs, slots) && (forall k :: 0 <= k < |kids| ==> kids[k] < |slots|)
    requires children == ObjectsAt(objs, kids)
    ensures match FindByLocator(slots, kids, locator) case None => found == null case Some(i) => found == objs[i]
  {
    for k := 0 to |children|
      invariant FindByLocator(slots, kids, locator) == FindByLocator(slots, kids[k..], locator)
    {
      assert MirrorsAt(objs, slots, kids[k]);
      if children[k].head.sourceLocator == locator {
        return children[k];
      }
      assert kids[k..][1..] == kids[k + 1..];
    }
    return null;
  }

  method FindSimpleParagraph(ghost objs: seq<LegalNode>, ghost slots: seq<Slot>, ghost kids: seq<nat>,
                             children: seq<LegalNode>, num: string, simple: set<string>) returns (found: LegalNode?)
    requires Mirrors(objs, slots) && (forall k :: 0 <= k < |kids| ==> kids[k] < |slots|)
    requires children == ObjectsAt(objs, kids)
    ensures match FindSimple(slots, kids, num, simple) case None => found == null case Some(i) => found == objs[i]
  {
    for k := 0 to |children|
      invariant FindSimple(slots, kids, num, simple) == FindSimple(slots, kids[k..], num, simple)
    {
      assert MirrorsAt(objs, slots, kids[k]);
      var node := children[k];
      if node.head.nodeType == PARAGRAPH && node.head.paragraph == Some(num) && node.head.sourceLocator in simple {
        return node;
      }
      assert kids[k..][1..] == kids[k + 1..];
    }
    return null;
  }

  method FindArticleChild(ghost objs: seq<LegalNode>, ghost slots: seq<Slot>, ghost kids: seq<nat>,
                          children: seq<LegalNode>, token: string) returns (found: LegalNode?)
    requires Mirrors(objs, slots) && (forall k :: 0 <= k < |kids| ==> kids[k] < |slots|)
    requires children == ObjectsAt(objs, kids)
    ensures match FindArticleAmong(slots, kids, token) case None => found == null case Some(i) => found == objs[i]
  {
    for k := 0 to |children|
      invariant FindArticleAmong(slots, kids, token) == FindArticleAmong(slots, kids[k..], token)
    {
      assert MirrorsAt(objs, slots, kids[k]);
      if children[k].head.nodeType == ARTICLE && children[k].head.article == Some(token) {
        return children[k];
      }
      assert kids[k..][1..] == kids[k + 1..];
    }
    return null;
  }

  method FindArticleNode(ghost objs: seq<LegalNode>, ghost slots: seq<Slot>, ghost kids: seq<nat>,
                         children: seq<LegalNode>, token: string) returns (found: LegalNode?)
    requires Mirrors(objs, slots) && (forall k :: 0 <= k < |kids| ==> kids[k] < |slots|)
    requires children == ObjectsAt(objs, kids)
    ensures match FindArticle(slots, kids, token) case None => found == null case Some(i) => found == objs[i]
  {
    for k := 0 to |children|
      invariant FindArticle(slots, kids, token) == FindArticle(slots, kids[k..], token)
    {
      var child := children[k];
      assert MirrorsAt(objs, slots, kids[k]);
      if child.head.nodeType == ARTICLE && child.head.article == Some(token) {
        return child;
      }
      if child.head.nodeType == CHAPTER {
        var inside := FindArticleChild(objs, slots, slots[kids[k]].children, child.children, token);
        if inside != null {
          return inside;
        }
      }
      assert kids[k..][1..] == kids[k + 1..];
    }
    return null;
  }

  method EnsureParagraphNode(env: Env, ghost objs: seq<LegalNode>, ghost slots: seq<Slot>, ghost a: nat,
                             created: nat, article: LegalNode, num: string, initial: Option<string>)
    returns (node: LegalNode, created': nat, ghost objs': seq<LegalNode>)
    requires Mirrors(objs, slots) && a < |objs| && objs[a] == article && created == |slots|
    modifies article
    ensures var (after, p) := EnsureParagraph(env, slots, a, num, initial);
            objs <= objs' && Mirrors(objs', after) && node == objs'[p] && created' == |after|
    ensures forall i :: |objs| <= i < |objs'| ==> fresh(objs'[i])
  {
    assert MirrorsAt(objs, slots, a);
    var locator := article.head.sourceLocator + "/p-" + num;
    var existing := FindChild(objs, slots, slots[a].children, article.children, locator);
    if existing != null {
      return existing, created, objs;
    }
    var row := MakeRow(env, created, Some(article.head.id), PARAGRAPH, locator, None,
                       match initial case None => "" case Some(t) => t,
                       NO_NUMBERS.(article := article.head.article, paragraph := Some(num), number := Some(num)));
    assert row == ParagraphRow(env, slots, a, num, TextOr(initial));
    node, objs' := PushNode(objs, slots, a, article, row);
    created' := created + 1;
  }

  method EnsureClauseNode(env: Env, ghost objs: seq<LegalNode>, ghost slots: seq<Slot>, ghost p: nat,
                          created: nat, paragraph: LegalNode, num: string, initial: Option<string>)
    returns (node: LegalNode, created': nat, ghost objs': seq<LegalNode>)
    requires Mirrors(objs, slots) && p < |objs| && objs[p] == paragraph && created == |slots|
    modifies paragraph
    ensures var (after, c) := EnsureClause(env, slots, p, num, initial);
            objs <= objs' && Mirrors(objs', after) && node == objs'[c] && created' == |after|
    ensures forall i :: |objs| <= i < |objs'| ==> fresh(objs'[i])
  {
    assert MirrorsAt(objs, slots, p);
    var locator := paragraph.head.sourceLocator + "/c-" + num;
    var existing := FindChild(objs, slots, slots[p].children, paragraph.children, locator);
    if existing != null {
      return existing, created, objs;
    }
    var row := MakeRow(env, created, Some(paragraph.head.id), CLAUSE, locator, None,
                       match initial case None => "" case Some(t) => t,
                       NO_NUMBERS.(article := paragraph.head.article, paragraph := paragraph.head.paragraph,
                                   clause := Some(num), number := Some(num)));
    assert row == ClauseRow(env, slots, p, num, TextOr(initial));
    node, objs' := PushNode(objs, slots, p, paragraph, row);
    created' := created + 1;
  }

  // ----- The parse loop -----

  /** The object that a cursor of the model denotes. */
  ghost function At(objs: seq<LegalNode>, c: Option<nat>): (r: LegalNode?)
    requires c.Some? ==> c.value < |objs|
  {
    match c case None => null case Some(i) => objs[i]
  }

  /** What a line does below the paragraph that it names, and the clause it opens. */
  ghost function BelowParagraph(env: Env, slots: seq<Slot>, a: nat, p: nat, clause: string, sub: Option<string>,
                                rest: string)
    : (r: (seq<Slot>, nat))
    requires InBounds(slots) && a < |slots| && p < |slots|
    ensures InBounds(r.0) && r.1 < |r.0|
  {
    var (slots2, c) := EnsureClause(env, slots, p, clause, if sub.Some? then None else Some(rest));
    (if sub.None? then AppendAt(env, slots2, c, rest)
     else Push(slots2, c, SubClauseRow(env, slots2, a, p, c, clause, sub.value, rest)), c)
  }

  lemma ParagraphStepShape(env: Env, s: State, target: nat, para: string, clause: string, sub: Option<string>,
                           rest: string)
    requires Bounded(s) && target < |s.slots|
    ensures var (slots1, p) := EnsureParagraph(env, s.slots, target, para, None);
            var (after, c) := BelowParagraph(env, slots1, target, p, clause, sub, rest);
            ParagraphStep(env, s, target, para, Some(clause), sub, rest) ==
            State(after, s.chapter, Some(target), Some(p), Some(c), s.simple)
  {
  }

  class Parser {
    const env: Env
    const root: LegalNode
    var created: nat
    var currentChapter: LegalNode?
    var currentArticle: LegalNode?
    var currentParagraph: LegalNode?
    var currentClause: LegalNode?
    var simpleParagraphLocators: set<string>
    ghost var objs: seq<LegalNode>
    ghost var model: State

    ghost predicate Valid()
      reads this, objs
    {
      Bounded(model) && Mirrors(objs, model.slots) && created == |objs| && root == objs[0] &&
      currentChapter == At(objs, model.chapter) && currentArticle == At(objs, model.article) &&
      currentParagraph == At(objs, model.paragraph) && currentClause == At(objs, model.clause) &&
      simpleParagraphLocators == model.simple
    }

    constructor (env: Env, title: string)
      ensures Valid() && this.env == env && model == Start(env, title) && fresh(objs)
    {
      this.env := env;
      var node := new LegalNode(MakeRow(env, 0, None, DOCUMENT, "doc", Some(title), title, NO_NUMBERS));
      root := node;
      created := 1;
      currentChapter, currentArticle, currentParagraph, currentClause := null, null, null, null;
      simpleParagraphLocators := {};
      objs := [node];
      model := Start(env, title);
      new;
      assert MirrorsAt(objs, model.slots, 0);
    }

    /** The objects have caught up with the model. */
    ghost method Settle(next: State)
      requires Bounded(next) && Mirrors(objs, next.slots) && created == |objs| && root == objs[0]
      requires currentChapter == At(objs, next.chapter) && currentArticle == At(objs, next.article)
      requires currentParagraph == At(objs, next.paragraph) && currentClause == At(objs, next.clause)
      requires simpleParagraphLocators == next.simple
      modifies this`model
      ensures Valid() && model == next
    {
      model := next;
    }

    /** A fresh node is pushed under `parent`; the cursors are left to the caller. */
    method Create(ghost p: nat, parent: LegalNode, row: FlatNode) returns (node: LegalNode)
      requires Bounded(model) && Mirrors(objs, model.slots) && created == |objs| && p < |objs| && objs[p] == parent
      modifies this`objs, this`created, parent
      ensures fresh(node) && objs == old(objs) + [node] && created == |objs|
      ensures Mirrors(objs, Push(model.slots, p, row))
    {
      node, objs := PushNode(objs, model.slots, p, parent, row);
      created := created + 1;
    }

    method OnChapter(token: string, line: string)
      requires Valid()
      modifies this, objs
      ensures Valid() && model == ChapterStep(env, old(model), token, line)
      ensures old(objs) <= objs && forall i :: |old(objs)| <= i < |objs| ==> fresh(objs[i])
    {
      assert MirrorsAt(objs, model.slots, 0);
      var row := MakeRow(env, created, Some(root.head.id), CHAPTER, "ch-" + token, Some(line), line,
                         NO_NUMBERS.(chapter := Some(token), number := Some(token)));
      assert row == ChapterRow(env, model.slots, token, line);
      ghost var model' := ChapterStep(env, model, token, line);
      currentChapter := Create(0, root, row);
      currentArticle, currentParagraph, currentClause := null, null, null;
      Settle(model');
    }

    method ParentForArticle() returns (parent: LegalNode)
      requires Valid()
      ensures parent == objs[ArticleParent(model)] && MirrorsAt(objs, model.slots, ArticleParent(model))
    {
      assert MirrorsAt(objs, model.slots, ArticleParent(model));
      parent := if currentChapter == null then root else currentChapter;
    }

    method NewArticle(token: string, title: Option<string>, line: string, parent: LegalNode) returns (row: FlatNode)
      requires Valid() && parent == objs[ArticleParent(model)]
      ensures row == ArticleRow(env, model, token, title, line)
    {
      assert MirrorsAt(objs, model.slots, ArticleParent(model));
      var shown := if Truthy(title) then title.value else "Article " + token;
      var chapter := if currentChapter == null then None else currentChapter.head.chapter;
      row := MakeRow(env, created, Some(parent.head.id), ARTICLE, "art-" + token, Some(shown), line,
                     NO_NUMBERS.(article := Some(token), number := Some(token), chapter := chapter));
    }

    /** A node is pushed under the open chapter or the root. */
    method CreateUnderParent(parent: LegalNode, row: FlatNode) returns (node: LegalNode)
      requires Valid() && parent == objs[ArticleParent(model)]
      modifies this`objs, this`created, parent
      ensures fresh(node) && objs == old(objs) + [node] && created == |objs|
      ensures Mirrors(objs, Push(model.slots, ArticleParent(model), row))
      ensures root == objs[0] && currentChapter == At(objs, model.chapter)
    {
      node := Create(ArticleParent(model), parent, row);
    }

    method AddArticle(token: string, title: Option<string>, line: string) returns (article: LegalNode)
      requires Valid()
      modifies this`objs, this`created, objs
      ensures |objs| == |old(objs)| + 1 && objs[..|old(objs)|] == old(objs) && fresh(article)
      ensures objs[|old(objs)|] == article
      ensures created == |objs| && Mirrors(objs, ArticleStep(env, model, token, title, line).slots)
      ensures root == objs[0] && currentChapter == At(objs, model.chapter)
    {
      var parent := ParentForArticle();
      var row := NewArticle(token, title, line, parent);
      article := CreateUnderParent(parent, row);
    }

    method OnArticle(token: string, title: Option<string>, line: string)
      requires Valid()
      modifies this, objs
      ensures Valid() && model == ArticleStep(env, old(model), token, title, line)
      ensures old(objs) <= objs && forall i :: |old(objs)| <= i < |objs| ==> fresh(objs[i])
    {
      ghost var model' := ArticleStep(env, model, token, title, line);
      currentArticle := AddArticle(token, title, line);
      currentParagraph, currentClause := null, null;
      Settle(model');
    }

    method NewAnnex(line: string, parent: LegalNode) returns (row: FlatNode)
      requires Valid() && parent == objs[ArticleParent(model)]
      ensures row == AnnexRow(env, model, line)
    {
      assert MirrorsAt(objs, model.slots, ArticleParent(model)) && MirrorsAt(objs, model.slots, 0);
      row := MakeRow(env, created, Some(parent.head.id), ANNEX, "annex-" + NatToString(|root.children| + 1),
                     Some(if |line| <= 120 then line else line[..120]), line, NO_NUMBERS);
    }

    method AddAnnex(line: string)
      requires Valid()
      modifies this`objs, this`created, objs
      ensures |objs| == |old(objs)| + 1 && objs[..|old(objs)|] == old(objs) && fresh(objs[|old(objs)|])
      ensures created == |objs| && Mirrors(objs, AnnexStep(env, model, line).slots)
      ensures root == objs[0] && currentChapter == At(objs, model.chapter)
    {
      var parent := ParentForArticle();
      var row := NewAnnex(line, parent);
      var annex := CreateUnderParent(parent, row);
    }

    method OnAnnex(line: string)
      requires Valid()
      modifies this, objs
      ensures Valid() && model == AnnexStep(env, old(model), line)
      ensures old(objs) <= objs && forall i :: |old(objs)| <= i < |objs| ==> fresh(objs[i])
    {
      ghost var model' := AnnexStep(env, model, line);
      AddAnnex(line);
      currentArticle, currentParagraph, currentClause := null, null, null;
      Settle(model');
    }

    /** `N.M` under a simple paragraph: clause M of paragraph N. */
    method OnSimpleClause(ghost target: nat, ghost p: nat, article: LegalNode, paragraph: LegalNode,
                          num: string, rest: string)
      requires Valid() && target < |objs| && p < |objs| && objs[target] == article && objs[p] == paragraph
      modifies this, objs
      ensures Valid() && model == SimpleClauseStep(env, old(model), target, p, num, rest)
      ensures old(objs) <= objs && forall i :: |old(objs)| <= i < |objs| ==> fresh(objs[i])
    {
      ghost var model' := SimpleClauseStep(env, model, target, p, num, rest);
      ghost var (slots, c) := EnsureClause(env, model.slots, p, num, Some(rest));
      currentArticle := article;
      currentParagraph := paragraph;
      currentClause, created, objs := EnsureClauseNode(env, objs, model.slots, p, created, paragraph, num, Some(rest));
      AppendTextTo(env, objs, slots, c, currentClause, rest);
      Settle(model');
    }

    /** The paragraph that a qualified line opens or reopens. */
    method OpenParagraph(ghost target: nat, article: LegalNode, para: string, initial: Option<string>)
      requires Valid() && target < |objs| && objs[target] == article
      modifies this`objs, this`created, this`currentArticle, this`currentParagraph, article
      ensures var (slots1, p) := EnsureParagraph(env, model.slots, target, para, initial);
              Mirrors(objs, slots1) && currentParagraph == objs[p]
      ensures created == |objs| && currentArticle == article
      ensures old(objs) <= objs && forall i :: |old(objs)| <= i < |objs| ==> fresh(objs[i])
    {
      currentArticle := article;
      currentParagraph, created, objs :=
        EnsureParagraphNode(env, objs, model.slots, target, created, article, para, initial);
    }

    /** A qualified line that only names a paragraph. */
    method OnParagraphAlone(ghost target: nat, article: LegalNode, para: string, ghost sub: Option<string>,
                            rest: string)
      requires Valid() && target < |objs| && objs[target] == article
      modifies this, objs
      ensures Valid() && model == ParagraphStep(env, old(model), target, para, None, sub, rest)
      ensures old(objs) <= objs && forall i :: |old(objs)| <= i < |objs| ==> fresh(objs[i])
    {
      ghost var (slots1, p) := EnsureParagraph(env, model.slots, target, para, Some(rest));
      ghost var model' := ParagraphStep(env, model, target, para, None, sub, rest);
      OpenParagraph(target, article, para, Some(rest));
      AppendTextTo(env, objs, slots1, p, currentParagraph, rest);
      currentClause := null;
      Settle(model');
    }

    /** A qualified line that names a clause as well. */
    method OnParagraphClause(ghost target: nat, article: LegalNode, para: string, clause: string,
                             sub: Option<string>, rest: string)
      requires Valid() && target < |objs| && objs[target] == article
      modifies this, objs
      ensures Valid() && model == ParagraphStep(env, old(model), target, para, Some(clause), sub, rest)
      ensures old(objs) <= objs && forall i :: |old(objs)| <= i < |objs| ==> fresh(objs[i])
    {
      ghost var (slots1, p) := EnsureParagraph(env, model.slots, target, para, None);
      ghost var (after, c) := BelowParagraph(env, slots1, target, p, clause, sub, rest);
      ParagraphStepShape(env, model, target, para, clause, sub, rest);
      ghost var model' := State(after, model.chapter, Some(target), Some(p), Some(c), model.simple);
      OpenParagraph(target, article, para, None);
      OnClause(slots1, target, p, clause, sub, rest);
      Settle(model');
    }

    method OnParagraph(ghost target: nat, article: LegalNode, para: string,
                       clause: Option<string>, sub: Option<string>, rest: string)
      requires Valid() && target < |objs| && objs[target] == article
      modifies this, objs
      ensures Valid() && model == ParagraphStep(env, old(model), target, para, clause, sub, rest)
      ensures old(objs) <= objs && forall i :: |old(objs)| <= i < |objs| ==> fresh(objs[i])
    {
      match clause {
        case None => OnParagraphAlone(target, article, para, sub, rest);
        case Some(c) => OnParagraphClause(target, article, para, c, sub, rest);
      }
    }

    /** The clause and sub-clause branches, once the paragraph node is in place. */
    method OnClause(ghost slots: seq<Slot>, ghost target: nat, ghost p: nat, clause: string,
                    sub: Option<string>, rest: string)
      requires Mirrors(objs, slots) && created == |slots| && target < |objs| && p < |objs|
      requires currentArticle == objs[target] && currentParagraph == objs[p]
      modifies this`objs, this`created, this`currentClause, objs
      ensures var (after, c) := BelowParagraph(env, slots, target, p, clause, sub, rest);
              Mirrors(objs, after) && currentClause == objs[c]
      ensures created == |objs| && old(objs) <= objs && forall i :: |old(objs)| <= i < |objs| ==> fresh(objs[i])
    {
      var initial := if sub.Some? then None else Some(rest);
      ghost var (slots2, c) := EnsureClause(env, slots, p, clause, initial);
      currentClause, created, objs := EnsureClauseNode(env, objs, slots, p, created, currentParagraph, clause, initial);
      if sub.None? {
        AppendTextTo(env, objs, slots2, c, currentClause, rest);
      } else {
        AddSubClause(slots2, target, p, c, clause, sub.value, rest);
      }
    }

    method AddSubClause(ghost slots: seq<Slot>, ghost a: nat, ghost p: nat, ghost c: nat, clause: string,
                        sub: string, rest: string)
      requires Mirrors(objs, slots) && created == |slots| && a < |objs| && p < |objs| && c < |objs|
      requires currentArticle == objs[a] && currentParagraph == objs[p] && currentClause == objs[c]
      modifies this`objs, this`created, currentClause
      ensures Mirrors(objs, Push(slots, c, SubClauseRow(env, slots, a, p, c, clause, sub, rest)))
      ensures created == |objs| == |old(objs)| + 1 && old(objs) <= objs && fresh(objs[|old(objs)|])
    {
      var row := NewSubClause(slots, a, p, c, clause, sub, rest);
      var node;
      node, objs := PushNode(objs, slots, c, currentClause, row);
      created := created + 1;
    }

    method NewSubClause(ghost slots: seq<Slot>, ghost a: nat, ghost p: nat, ghost c: nat, clause: string,
                        sub: string, rest: string) returns (row: FlatNode)
      requires Mirrors(objs, slots) && created == |slots| && a < |objs| && p < |objs| && c < |objs|
      requires currentArticle == objs[a] && currentParagraph == objs[p] && currentClause == objs[c]
      ensures row == SubClauseRow(env, slots, a, p, c, clause, sub, rest)
    {
      assert MirrorsAt(objs, slots, a) && MirrorsAt(objs, slots, p) && MirrorsAt(objs, slots, c);
      row := MakeRow(env, created, Some(currentClause.head.id), SUB_CLAUSE,
                     currentClause.head.sourceLocator + "/sc-" + sub, None, rest,
                     NO_NUMBERS.(article := currentArticle.head.article, paragraph := currentParagraph.head.paragraph,
                                 clause := Some(clause), subClause := Some(sub), number := Some(sub)));
    }

    /** The article a qualified line goes to. */
    method SelectTarget(token: string) returns (target: LegalNode)
      requires Valid() && currentArticle != null
      ensures target == objs[TargetArticle(model, token)]
    {
      assert MirrorsAt(objs, model.slots, 0) && MirrorsAt(objs, model.slots, model.article.value);
      var located := FindArticleNode(objs, model.slots, model.slots[0].children, root.children, token);
      target := if currentArticle.head.article == Some(token) || located == null then currentArticle else located;
    }

    method OnQualified(token: string, main: string, para: string, clause: Option<string>,
                       sub: Option<string>, rest: string)
      requires Valid() && currentArticle != null
      modifies this, objs
      ensures Valid() && model == QualifiedStep(env, old(model), token, main, para, clause, sub, rest)
      ensures old(objs) <= objs && forall i :: |old(objs)| <= i < |objs| ==> fresh(objs[i])
    {
      var target := SelectTarget(token);
      ghost var t := TargetArticle(model, token);
      assert MirrorsAt(objs, model.slots, t);
      var simple: LegalNode? := null;
      if clause.None? {
        simple := FindSimpleParagraph(objs, model.slots, model.slots[t].children, target.children, main,
                                      simpleParagraphLocators);
      }
      if simple != null {
        ghost var p := FindSimple(model.slots, model.slots[t].children, main, model.simple).value;
        OnSimpleClause(t, p, target, simple, para, rest);
      } else {
        OnParagraph(t, target, para, clause, sub, rest);
      }
    }

    /** The paragraph of a simple line is remembered as such and gets the text. */
    method FillSimple(ghost slots: seq<Slot>, ghost p: nat, rest: string)
      requires Mirrors(objs, slots) && p < |objs| && currentParagraph == objs[p]
      modifies this`simpleParagraphLocators, this`currentClause, currentParagraph
      ensures simpleParagraphLocators == old(simpleParagraphLocators) + {slots[p].row.sourceLocator}
      ensures Mirrors(objs, AppendAt(env, slots, p, rest)) && currentClause == null
    {
      assert MirrorsAt(objs, slots, p);
      simpleParagraphLocators := simpleParagraphLocators + {currentParagraph.head.sourceLocator};
      AppendTextTo(env, objs, slots, p, currentParagraph, rest);
      currentClause := null;
    }

    method OnSimple(num: string, rest: string)
      requires Valid() && currentArticle != null
      modifies this, objs
      ensures Valid() && model == SimpleStep(env, old(model), num, rest)
      ensures old(objs) <= objs && forall i :: |old(objs)| <= i < |objs| ==> fresh(objs[i])
    {
      ghost var model' := SimpleStep(env, model, num, rest);
      ghost var (slots, p) := EnsureParagraph(env, model.slots, model.article.value, num, Some(rest));
      OpenParagraph(model.article.value, currentArticle, num, Some(rest));
      FillSimple(slots, p, rest);
      Settle(model');
    }

    method OnText(line: string)
      requires Valid()
      modifies this, objs
      ensures Valid() && model == TextStep(env, old(model), line) && objs == old(objs)
    {
      ghost var model' := TextStep(env, model, line);
      if currentClause != null {
        AppendTextTo(env, objs, model.slots, model.clause.value, currentClause, line);
      } else if currentParagraph != null {
        AppendTextTo(env, objs, model.slots, model.paragraph.value, currentParagraph, line);
      } else if currentArticle != null {
        AppendTextTo(env, objs, model.slots, model.article.value, currentArticle, line);
      }
      Settle(model');
    }

    method OnLine(l: Line)
      requires Valid()
      modifies this, objs
      ensures Valid() && model == Step(env, old(model), l)
      ensures old(objs) <= objs && forall i :: |old(objs)| <= i < |objs| ==> fresh(objs[i])
    {
      match l {
        case Chrome =>
        case Chapter(line, value, bis) => OnChapter(ArticleToken(NatToString(value), bis), line);
        case ArticleWord(line, value, title) => OnArticle(NatToString(value), title, line);
        case ArticleNumber(line, main, bis, title) => OnArticle(ArticleToken(main, bis), title, line);
        case Annex(line) => OnAnnex(line);
        case Qualified(line, main, bis, para, clause, sub, rest) =>
          if currentArticle != null {
            OnQualified(ArticleToken(main, bis), main, para, clause, sub, rest);
          } else {
            OnText(line);
          }
        case Simple(line, num, rest) =>
          if currentArticle != null {
            OnSimple(num, rest);
          } else {
            OnText(line);
          }
        case Plain(line) => OnText(line);
      }
    }
  }

  /** Linked objects that mirror sound slots represent the parsed tree. */
  lemma {:induction false} MirrorsRepresent(env: Env, objs: seq<LegalNode>, slots: seq<Slot>, i: nat, t: Tree)
    requires ValidEnv(env) && SlotsOk(env, slots) && Mirrors(objs, slots) && i < |slots|
    requires Matches(Rows(slots), t) && t.node == slots[i].row
    ensures Represents(objs[i], t, set o | o in objs)
    decreases t
  {
    assert MirrorsAt(objs, slots, i);
    assert SlotOk(env, slots, i);
    KidsArePushed(env, slots, |slots|, i);
    PushedRowsAt(slots, |slots|, i);
    assert Rows(slots)[..|slots|] == Rows(slots);
    var o := objs[i];
    assert |o.children| == |Heads(t.children)| == |t.children|;
    forall k | 0 <= k < |t.children|
      ensures Represents(o.children[k], t.children[k], set o | o in objs)
    {
      var c := slots[i].children[k];
      assert Heads(t.children)[k] == t.children[k].node == slots[c].row;
      MirrorsRepresent(env, objs, slots, c, t.children[k]);
    }
  }

  /**
   The whole parse: the objects reachable from the returned root form exactly the one tree
   of the rows that the model reaches on these lines.
   */
  method Parse(env: Env, title: string, lines: seq<Line>) returns (root: LegalNode, ghost repr: set<LegalNode>)
    requires ValidEnv(env) && AllWellFormed(lines)
    ensures fresh(root)
    ensures var ts := TreeOf(Run(env, title, lines).slots);
            |ts| == 1 && Represents(root, ts[0], repr)
  {
    var parser := new Parser(env, title);
    for k := 0 to |lines|
      invariant parser.Valid() && parser.env == env && fresh(parser) && fresh(parser.objs)
      invariant parser.model == Run(env, title, lines[..k])
    {
      parser.OnLine(lines[k]);
      assert lines[..k + 1][..k] == lines[..k];
    }
    assert lines[..|lines|] == lines;
    root := parser.root;
    repr := set o | o in parser.objs;
    RunInv(env, title, lines);
    ghost var slots := Run(env, title, lines).slots;
    ParsedTree(env, slots);
    MirrorsRepresent(env, parser.objs, slots, 0, TreeOf(slots)[0]);
  }
}
