/**
 Which reading a qualified line N.M gets. A scan that counts article headings and remembers
 paragraph numbers predicts, from the earlier lines alone, the article node a qualified line goes
 to, and whether N.M is clause M of paragraph N or paragraph M.
 */
module ParserReadings {
  import opened Prelude
  import opened LegalNodes
  import opened LocatorGrammar
  import opened ParserModel
  import opened ParserInvariants

  // ----- The scan over lines -----

  /**
   Articles are numbered by their headings, so that repeated article numbers stay apart.
   `paragraphs` holds the paragraph numbers met below each article; `simple` the article token
   and number of every simple numbered line.
   */
  datatype Readings = Readings(
    articles: seq<string>, open: Option<nat>, paragraphs: set<(nat, string)>, simple: set<(string, string)>)

  const NOTHING_READ := Readings([], None, {}, {})

  predicate Sound(rd: Readings) {
    rd.open.Some? ==> rd.open.value < |rd.articles|
  }

  function FirstWith(articles: seq<string>, token: string): (r: Option<nat>)
    ensures r.Some? ==> r.value < |articles| && articles[r.value] == token && token !in articles[..r.value]
    ensures r.None? ==> token !in articles
    decreases |articles|
  {
    if articles == [] then None
    else
      var before := FirstWith(articles[..|articles| - 1], token);
      assert articles == articles[..|articles| - 1] + [articles[|articles| - 1]];
      if before.Some? then before
      else if articles[|articles| - 1] == token then Some(|articles| - 1) else None
  }

  /** The article a line with this token goes to: the open one if it has the token, else the first that has. */
  function TargetOf(rd: Readings, token: string): (r: nat)
    requires Sound(rd) && rd.open.Some?
    ensures r < |rd.articles|
  {
    var found := FirstWith(rd.articles, token);
    if rd.articles[rd.open.value] == token || found.None? then rd.open.value else found.value
  }

  /**
   N.M without further numbers is clause M of paragraph N exactly when the article already has a
   paragraph N and some simple line opened an N under an article of that number.
   */
  predicate ReadsAsClause(rd: Readings, l: Line)
    requires Sound(rd)
  {
    l.Qualified? && rd.open.Some? && l.clause.None? &&
    var k := TargetOf(rd, ArticleToken(l.main, l.bis));
    (k, l.main) in rd.paragraphs && (rd.articles[k], l.main) in rd.simple
  }

  function OpenArticle(rd: Readings, token: string): (r: Readings) {
    Readings(rd.articles + [token], Some(|rd.articles|), rd.paragraphs, rd.simple)
  }

  function ReadStep(rd: Readings, l: Line): (r: Readings)
    requires Sound(rd)
    ensures Sound(r)
  {
    match l
    case Chrome => rd
    case Chapter(_, _, _) => rd.(open := None)
    case ArticleWord(_, value, _) => OpenArticle(rd, NatToString(value))
    case ArticleNumber(_, main, bis, _) => OpenArticle(rd, ArticleToken(main, bis))
    case Annex(_) => rd.(open := None)
    case Qualified(_, main, bis, para, _, _, _) =>
      if rd.open.None? then rd
      else
        var k := TargetOf(rd, ArticleToken(main, bis));
        rd.(open := Some(k), paragraphs := if ReadsAsClause(rd, l) then rd.paragraphs else rd.paragraphs + {(k, para)})
    case Simple(_, num, _) =>
      if rd.open.None? then rd
      else
        rd.(paragraphs := rd.paragraphs + {(rd.open.value, num)},
            simple := rd.simple + {(rd.articles[rd.open.value], num)})
    case Plain(_) => rd
  }

  function ReadLines(lines: seq<Line>): (r: Readings)
    ensures Sound(r)
    decreases |lines|
  {
    if lines == [] then NOTHING_READ else ReadStep(ReadLines(lines[..|lines| - 1]), lines[|lines| - 1])
  }

  /** Every remembered pair has a paragraph below some article with its token. */
  ghost predicate PairsHaveParagraphs(rd: Readings) {
    forall t, n :: (t, n) in rd.simple ==>
      exists k: nat :: k < |rd.articles| && rd.articles[k] == t && (k, n) in rd.paragraphs
  }

  lemma PairStays(rd: Readings, next: Readings, t: string, n: string)
    requires PairsHaveParagraphs(rd) && rd.articles <= next.articles && rd.paragraphs <= next.paragraphs
    requires (t, n) in rd.simple
    ensures exists k: nat :: k < |next.articles| && next.articles[k] == t && (k, n) in next.paragraphs
  {
    var k: nat :| k < |rd.articles| && rd.articles[k] == t && (k, n) in rd.paragraphs;
    assert next.articles[k] == t && (k, n) in next.paragraphs;
  }

  lemma {:induction false} PairsKept(lines: seq<Line>)
    ensures PairsHaveParagraphs(ReadLines(lines))
    decreases |lines|
  {
    if lines != [] {
      var rd := ReadLines(lines[..|lines| - 1]);
      var next := ReadLines(lines);
      PairsKept(lines[..|lines| - 1]);
      forall t, n | (t, n) in next.simple
        ensures exists k: nat :: k < |next.articles| && next.articles[k] == t && (k, n) in next.paragraphs
      {
        if (t, n) in rd.simple {
          PairStays(rd, next, t, n);
        } else {
          assert (rd.open.value, n) in next.paragraphs;
        }
      }
    }
  }

  /**
   When no article number repeats, the remembered pair alone decides: N.M is a clause exactly
   when some earlier simple line opened paragraph N of that article.
   */
  lemma PairDecides(lines: seq<Line>, l: Line)
    requires NoRepeats(ReadLines(lines).articles) && ReadLines(lines).open.Some? && l.Qualified? && l.clause.None?
    ensures var rd := ReadLines(lines);
            ReadsAsClause(rd, l) <==> (rd.articles[TargetOf(rd, ArticleToken(l.main, l.bis))], l.main) in rd.simple
  {
    var rd := ReadLines(lines);
    var k := TargetOf(rd, ArticleToken(l.main, l.bis));
    PairsKept(lines);
    if (rd.articles[k], l.main) in rd.simple {
      var j: nat :| j < |rd.articles| && rd.articles[j] == rd.articles[k] && (j, l.main) in rd.paragraphs;
      assert j < k || k < j || j == k;
    }
  }

  // ----- The same facts read off the slots -----

  /** The article slots in order of creation. */
  function Articles(slots: seq<Slot>, k: nat): (r: seq<nat>)
    requires k <= |slots|
  {
    if k == 0 then []
    else Articles(slots, k - 1) + if slots[k - 1].row.nodeType == ARTICLE then [k - 1] else []
  }

  lemma {:induction false} ArticlesMembers(slots: seq<Slot>, k: nat)
    requires k <= |slots|
    ensures forall i :: i in Articles(slots, k) <==> 0 <= i < k && slots[i].row.nodeType == ARTICLE
    ensures forall a, b :: 0 <= a < b < |Articles(slots, k)| ==> Articles(slots, k)[a] < Articles(slots, k)[b]
  {
    if k > 0 {
      ArticlesMembers(slots, k - 1);
      var before := Articles(slots, k - 1);
      forall a | 0 <= a < |before|
        ensures before[a] < k - 1
      {
        assert before[a] in before;
      }
    }
  }

  ghost predicate HasParagraph(slots: seq<Slot>, a: nat, num: string) {
    exists i :: 0 <= i < |slots| && IsParagraphOf(slots[i], a, num)
  }

  predicate IsParagraphOf(slot: Slot, a: nat, num: string) {
    slot.parent == a && slot.row.nodeType == PARAGRAPH && slot.row.paragraph == Some(num)
  }

  ghost predicate TokensKnown(slots: seq<Slot>, rd: Readings) {
    var arts := Articles(slots, |slots|);
    |arts| == |rd.articles| &&
    forall k :: 0 <= k < |arts| ==> arts[k] < |slots| && slots[arts[k]].row.article == Some(rd.articles[k])
  }

  ghost predicate ParagraphsKnown(slots: seq<Slot>, rd: Readings) {
    var arts := Articles(slots, |slots|);
    forall k: nat, num :: (k, num) in rd.paragraphs <==> k < |arts| && HasParagraph(slots, arts[k], num)
  }

  ghost predicate SimpleKnown(simple: set<string>, rd: Readings) {
    forall t, num :: IsArticleToken(t) && IsDigits(num) ==> ((t, num) in rd.simple <==> SimpleAt(simple, t, num))
  }

  predicate SimpleAt(simple: set<string>, t: string, num: string) {
    Spell(ParagraphPath(t, num)) in simple
  }

  /** Articles hang under the last chapter that was there before them. */
  ghost predicate Governed(s: State) {
    (forall c, i :: 0 <= c < i < |s.slots| && IsChapterAndArticle(s.slots[c], s.slots[i]) ==> c <= s.slots[i].parent) &&
    forall c :: 0 <= c < |s.slots| && s.slots[c].row.nodeType == CHAPTER ==> s.chapter.Some? && c <= s.chapter.value
  }

  predicate IsChapterAndArticle(c: Slot, a: Slot) {
    c.row.nodeType == CHAPTER && a.row.nodeType == ARTICLE
  }

  ghost predicate OpenKnown(s: State, rd: Readings)
    requires Bounded(s)
  {
    var arts := Articles(s.slots, |s.slots|);
    match s.article
    case None => rd.open.None?
    case Some(a) => rd.open.Some? && rd.open.value < |arts| && arts[rd.open.value] == a
  }

  ghost predicate Follows(s: State, rd: Readings)
    requires Bounded(s)
  {
    TokensKnown(s.slots, rd) && ParagraphsKnown(s.slots, rd) && SimpleKnown(s.simple, rd) && Governed(s) &&
    OpenKnown(s, rd)
  }

  // ----- Finding the article -----

  /** The earliest child that is an article with the token is the one found. */
  lemma {:induction false} AmongEarliest(slots: seq<Slot>, kids: seq<nat>, token: string, i: nat)
    requires forall k :: 0 <= k < |kids| ==> kids[k] < |slots|
    requires forall a, b :: 0 <= a < b < |kids| ==> kids[a] < kids[b]
    requires i in kids && IsArticle(slots[i].row, token)
    ensures FindArticleAmong(slots, kids, token).Some? && FindArticleAmong(slots, kids, token).value <= i
    decreases |kids|
  {
    if !IsArticle(slots[kids[0]].row, token) {
      AmongEarliest(slots, kids[1..], token, i);
    }
  }

  ghost predicate Ascending(kids: seq<nat>) {
    forall a, b :: 0 <= a < b < |kids| ==> kids[a] < kids[b]
  }

  lemma {:induction false} PushedAscend(slots: seq<Slot>, k: nat, p: nat)
    requires k <= |slots|
    ensures Ascending(PushedUnder(slots, k, p)) && forall c :: c in PushedUnder(slots, k, p) ==> c < k
  {
    if k > 1 {
      PushedAscend(slots, k - 1, p);
      var before := PushedUnder(slots, k - 1, p);
      forall a | 0 <= a < |before|
        ensures before[a] < k - 1
      {
        assert before[a] in before;
      }
    }
  }

  lemma ChildrenAscend(env: Env, slots: seq<Slot>, p: nat)
    requires SlotsOk(env, slots) && p < |slots|
    ensures Ascending(slots[p].children) && forall k :: 0 <= k < |slots[p].children| ==> slots[p].children[k] < |slots|
  {
    assert SlotOk(env, slots, p);
    PushedAscend(slots, |slots|, p);
    forall k | 0 <= k < |slots[p].children|
      ensures slots[p].children[k] < |slots|
    {
      assert slots[p].children[k] in slots[p].children;
    }
  }

  /** Article `i` hangs at one of these children of the root, or is one of them. */
  ghost predicate Below(slots: seq<Slot>, kids: seq<nat>, i: nat)
    requires i < |slots|
  {
    if slots[i].parent == 0 then i in kids else slots[i].parent in kids
  }

  /** Tree order is creation order: the search finds no article later than one with the token. */
  lemma {:induction false} SearchEarliest(env: Env, s: State, from: nat, token: string, i: nat)
    requires Inv(env, s) && Governed(s) && from <= |s.slots[0].children|
    requires 0 < i < |s.slots| && IsArticle(s.slots[i].row, token) && Below(s.slots, s.slots[0].children[from..], i)
    ensures var r := FindArticle(s.slots, s.slots[0].children[from..], token); r.Some? && r.value <= i
    decreases |s.slots[0].children| - from
  {
    var slots, all := s.slots, s.slots[0].children;
    var kids := all[from..];
    ChildrenAscend(env, slots, 0);
    assert SlotOk(env, slots, i);
    assert kids != [] && kids[0] == all[from] && kids[1..] == all[from + 1..];
    KidBounds(env, s, from, i);
    if IsArticle(slots[kids[0]].row, token) {
    } else if slots[kids[0]].row.nodeType == CHAPTER && FindArticleAmong(slots, slots[kids[0]].children, token).Some? {
      ChapterEarliest(env, s, kids[0], token, i);
    } else {
      NotBelowFirst(env, s, kids[0], token, i);
      assert Below(slots, kids[1..], i);
      SearchEarliest(env, s, from + 1, token, i);
    }
  }

  lemma KidBounds(env: Env, s: State, from: nat, i: nat)
    requires Inv(env, s) && from < |s.slots[0].children| && 0 < i < |s.slots| && s.slots[i].parent < i
    requires Below(s.slots, s.slots[0].children[from..], i)
    ensures s.slots[0].children[from] <= i
    ensures 0 < s.slots[0].children[from] < |s.slots| && s.slots[s.slots[0].children[from]].parent == 0
  {
    var all := s.slots[0].children;
    ChildrenAscend(env, s.slots, 0);
    assert all[from] in all;
    ChildFacts(env, s.slots, 0, all[from]);
    var at := if s.slots[i].parent == 0 then i else s.slots[i].parent;
    var k :| 0 <= k < |all[from..]| && all[from..][k] == at;
    assert all[from + k] == at;
  }

  /** The first article found inside chapter `c` is not later than any article with the token from `c` on. */
  lemma ChapterEarliest(env: Env, s: State, c: nat, token: string, i: nat)
    requires Inv(env, s) && Governed(s) && 0 < c <= i < |s.slots| && s.slots[c].row.nodeType == CHAPTER
    requires IsArticle(s.slots[i].row, token) && FindArticleAmong(s.slots, s.slots[c].children, token).Some?
    ensures FindArticleAmong(s.slots, s.slots[c].children, token).value <= i
  {
    var v := FindArticleAmong(s.slots, s.slots[c].children, token).value;
    ChildrenAscend(env, s.slots, c);
    ChildFacts(env, s.slots, c, v);
    assert SlotOk(env, s.slots, i);
    if s.slots[i].parent == c {
      InChildren(env, s.slots, i);
      AmongEarliest(s.slots, s.slots[c].children, token, i);
    } else {
      assert c < i && c <= s.slots[i].parent;
      ArticleParentType(env, s.slots, i);
      BeforeLaterChapter(s, s.slots[i].parent, v);
    }
  }

  /** An article under an earlier chapter was created before the later one. */
  lemma BeforeLaterChapter(s: State, c: nat, v: nat)
    requires Governed(s) && c < |s.slots| && s.slots[c].row.nodeType == CHAPTER
    requires v < |s.slots| && s.slots[v].row.nodeType == ARTICLE && s.slots[v].parent < c
    ensures v <= c
  {
  }

  lemma InChildren(env: Env, slots: seq<Slot>, i: nat)
    requires SlotsOk(env, slots) && 0 < i < |slots| && SlotOk(env, slots, i)
    ensures i in slots[slots[i].parent].children
  {
    assert SlotOk(env, slots, slots[i].parent);
    PushedUnderBelow(slots, |slots|, slots[i].parent);
  }

  lemma ArticleParentType(env: Env, slots: seq<Slot>, i: nat)
    requires SlotsOk(env, slots) && 0 < i < |slots| && slots[i].row.nodeType == ARTICLE
    ensures slots[i].parent < i && (slots[i].parent != 0 ==> slots[slots[i].parent].row.nodeType == CHAPTER)
  {
    assert SlotOk(env, slots, i);
    if slots[i].parent != 0 {
      assert SlotOk(env, slots, slots[i].parent);
    }
  }

  /** Nothing found at or inside the first child: the article is neither it nor below it. */
  lemma NotBelowFirst(env: Env, s: State, c: nat, token: string, i: nat)
    requires Inv(env, s) && 0 < c < |s.slots| && 0 < i < |s.slots| && IsArticle(s.slots[i].row, token)
    requires !IsArticle(s.slots[c].row, token)
    requires s.slots[c].row.nodeType == CHAPTER ==>
               (forall k :: 0 <= k < |s.slots[c].children| ==> s.slots[c].children[k] < |s.slots|) &&
               FindArticleAmong(s.slots, s.slots[c].children, token).None?
    ensures i != c && s.slots[i].parent != c
  {
    ArticleParentType(env, s.slots, i);
    if s.slots[i].parent == c {
      FoundInChapter(env, s.slots, c, token, i);
    }
  }

  lemma FoundInChapter(env: Env, slots: seq<Slot>, c: nat, token: string, i: nat)
    requires SlotsOk(env, slots) && 0 < i < |slots| && c < |slots| && slots[i].parent == c &&
             IsArticle(slots[i].row, token)
    requires forall k :: 0 <= k < |slots[c].children| ==> slots[c].children[k] < |slots|
    ensures FindArticleAmong(slots, slots[c].children, token).Some?
  {
    assert SlotOk(env, slots, i);
    InChildren(env, slots, i);
    ChildrenAscend(env, slots, c);
    AmongEarliest(slots, slots[c].children, token, i);
  }

  lemma SearchToScan(env: Env, s: State, rd: Readings, token: string, r: nat)
    requires Inv(env, s) && TokensKnown(s.slots, rd) && r < |s.slots| && IsArticle(s.slots[r].row, token)
    ensures var found := FirstWith(rd.articles, token); found.Some? && Articles(s.slots, |s.slots|)[found.value] <= r
  {
    var arts := Articles(s.slots, |s.slots|);
    ArticlesMembers(s.slots, |s.slots|);
    assert r in arts;
    var k :| 0 <= k < |arts| && arts[k] == r;
    FirstWithLeast(rd.articles, token, k);
  }

  lemma ScanToSearch(env: Env, s: State, rd: Readings, token: string)
    requires Inv(env, s) && TokensKnown(s.slots, rd) && Governed(s) && FirstWith(rd.articles, token).Some?
    ensures var r := FindArticle(s.slots, s.slots[0].children, token);
            r.Some? && r.value <= Articles(s.slots, |s.slots|)[FirstWith(rd.articles, token).value]
  {
    var arts := Articles(s.slots, |s.slots|);
    var i := arts[FirstWith(rd.articles, token).value];
    ArticlesMembers(s.slots, |s.slots|);
    assert i in arts;
    SearchFinds(env, s, token, i);
  }

  /** The article search agrees with the scan, also when article numbers repeat. */
  lemma SearchKnown(env: Env, s: State, rd: Readings, token: string)
    requires Inv(env, s) && TokensKnown(s.slots, rd) && Governed(s)
    ensures FindArticle(s.slots, s.slots[0].children, token) ==
            match FirstWith(rd.articles, token) case None => None case Some(k) => Some(Articles(s.slots, |s.slots|)[k])
  {
    var r := FindArticle(s.slots, s.slots[0].children, token);
    if r.Some? {
      SearchToScan(env, s, rd, token, r.value);
    }
    if FirstWith(rd.articles, token).Some? {
      ScanToSearch(env, s, rd, token);
    }
  }

  lemma TargetKnown(env: Env, s: State, rd: Readings, token: string)
    requires Inv(env, s) && Follows(s, rd) && Sound(rd) && s.article.Some?
    ensures TargetArticle(s, token) == Articles(s.slots, |s.slots|)[TargetOf(rd, token)]
  {
    SearchKnown(env, s, rd, token);
  }

  lemma {:induction false} FirstWithLeast(articles: seq<string>, token: string, k: nat)
    requires k < |articles| && articles[k] == token
    ensures FirstWith(articles, token).Some? && FirstWith(articles, token).value <= k
    decreases |articles|
  {
    if k < |articles| - 1 {
      FirstWithLeast(articles[..|articles| - 1], token, k);
    }
  }

  lemma ArticleBelowRoot(env: Env, slots: seq<Slot>, i: nat)
    requires SlotsOk(env, slots) && 0 < i < |slots| && slots[i].row.nodeType == ARTICLE
    ensures Below(slots, slots[0].children, i)
  {
    ArticleParentType(env, slots, i);
    assert SlotOk(env, slots, i);
    InChildren(env, slots, i);
    if slots[i].parent != 0 {
      ChapterUnderRoot(env, slots, slots[i].parent);
    }
  }

  lemma ChapterUnderRoot(env: Env, slots: seq<Slot>, c: nat)
    requires SlotsOk(env, slots) && 0 < c < |slots| && slots[c].row.nodeType == CHAPTER
    ensures c in slots[0].children
  {
    assert SlotOk(env, slots, c);
    InChildren(env, slots, c);
    assert SlotOk(env, slots, slots[c].parent);
  }

  lemma SearchFinds(env: Env, s: State, token: string, i: nat)
    requires Inv(env, s) && Governed(s) && i < |s.slots| && IsArticle(s.slots[i].row, token)
    ensures var r := FindArticle(s.slots, s.slots[0].children, token); r.Some? && r.value <= i
  {
    assert SlotOk(env, s.slots, 0);
    ArticleBelowRoot(env, s.slots, i);
    assert s.slots[0].children[0..] == s.slots[0].children;
    SearchEarliest(env, s, 0, token, i);
  }

  // ----- Predicting the reading -----

  lemma {:induction false} FindSimpleMeaning(slots: seq<Slot>, kids: seq<nat>, num: string, simple: set<string>)
    requires forall k :: 0 <= k < |kids| ==> kids[k] < |slots|
    ensures FindSimple(slots, kids, num, simple).Some? <==> exists i :: i in kids && IsSimple(slots, i, num, simple)
    decreases |kids|
  {
    if kids != [] {
      FindSimpleMeaning(slots, kids[1..], num, simple);
      if IsSimple(slots, kids[0], num, simple) {
        assert kids[0] in kids;
      }
      assert forall i :: i in kids <==> i == kids[0] || i in kids[1..];
    }
  }

  predicate IsSimple(slots: seq<Slot>, i: nat, num: string, simple: set<string>) {
    i < |slots| && slots[i].row.nodeType == PARAGRAPH && slots[i].row.paragraph == Some(num) &&
    slots[i].row.sourceLocator in simple
  }

  /** A paragraph of article `a` is located by the article's token and its own number. */
  lemma ParagraphAt(env: Env, slots: seq<Slot>, i: nat, a: nat, num: string)
    requires SlotsOk(env, slots) && 0 < a < |slots| && i < |slots| && IsParagraphOf(slots[i], a, num)
    ensures i in slots[a].children && slots[a].row.article.Some? && IsDigits(num)
    ensures IsArticleToken(slots[a].row.article.value)
    ensures slots[i].row.sourceLocator == Spell(ParagraphPath(slots[a].row.article.value, num))
  {
    assert SlotOk(env, slots, i);
    assert SlotOk(env, slots, 0);
    InChildren(env, slots, i);
    assert SlotOk(env, slots, a);
  }

  /** `FindSimple` finds a paragraph below an article exactly when the scan knows both facts. */
  lemma SimplePredicted(env: Env, s: State, rd: Readings, k: nat, num: string)
    requires Inv(env, s) && Follows(s, rd) && k < |rd.articles|
    ensures var a := Articles(s.slots, |s.slots|)[k];
            a < |s.slots| && (forall j :: 0 <= j < |s.slots[a].children| ==> s.slots[a].children[j] < |s.slots|) &&
            (FindSimple(s.slots, s.slots[a].children, num, s.simple).Some? <==>
              (k, num) in rd.paragraphs && (rd.articles[k], num) in rd.simple)
  {
    var arts := Articles(s.slots, |s.slots|);
    var a := arts[k];
    ArticlesMembers(s.slots, |s.slots|);
    assert a in arts;
    assert SlotOk(env, s.slots, 0);
    ChildrenAscend(env, s.slots, a);
    FindSimpleMeaning(s.slots, s.slots[a].children, num, s.simple);
    if i :| i in s.slots[a].children && IsSimple(s.slots, i, num, s.simple) {
      ChildFacts(env, s.slots, a, i);
      assert IsParagraphOf(s.slots[i], a, num);
      ParagraphAt(env, s.slots, i, a, num);
      assert SimpleAt(s.simple, rd.articles[k], num);
    }
    if (k, num) in rd.paragraphs && (rd.articles[k], num) in rd.simple {
      assert HasParagraph(s.slots, a, num);
      var i :| 0 <= i < |s.slots| && IsParagraphOf(s.slots[i], a, num);
      ParagraphAt(env, s.slots, i, a, num);
      assert SimpleAt(s.simple, rd.articles[k], num);
      assert IsSimple(s.slots, i, num, s.simple);
    }
  }

  /** The choice the parser makes on a qualified line is the predicted one. */
  lemma ReadingPredicted(env: Env, s: State, rd: Readings, l: Line)
    requires Inv(env, s) && Follows(s, rd) && Sound(rd) && l.Qualified? && s.article.Some?
    ensures var target := TargetArticle(s, ArticleToken(l.main, l.bis));
            l.clause.None? ==>
              (FindSimple(s.slots, s.slots[target].children, l.main, s.simple).Some? <==> ReadsAsClause(rd, l))
  {
    TargetKnown(env, s, rd, ArticleToken(l.main, l.bis));
    SimplePredicted(env, s, rd, TargetOf(rd, ArticleToken(l.main, l.bis)), l.main);
  }

  // ----- The scan follows the parser -----

  /**
   Old slots keep place, type and numbers; new ones are below articles; `more` lists paragraphs
   that are there now.
   */
  ghost predicate Evolves(a: seq<Slot>, b: seq<Slot>, more: set<(nat, string)>) {
    |a| <= |b| && (forall i :: 0 <= i < |a| ==> SamePlace(a[i], b[i])) &&
    (forall i :: |a| <= i < |b| ==> b[i].row.nodeType != ARTICLE && b[i].row.nodeType != CHAPTER) &&
    forall x: nat, n :: HasParagraph(b, x, n) <==> HasParagraph(a, x, n) || (x, n) in more
  }

  predicate SamePlace(a: Slot, b: Slot) {
    b.parent == a.parent && b.row.nodeType == a.row.nodeType && b.row.article == a.row.article &&
    b.row.paragraph == a.row.paragraph
  }

  lemma EvolvesTrans(a: seq<Slot>, b: seq<Slot>, c: seq<Slot>, m: set<(nat, string)>, n: set<(nat, string)>)
    requires Evolves(a, b, m) && Evolves(b, c, n)
    ensures Evolves(a, c, m + n)
  {
    forall i | 0 <= i < |a|
      ensures SamePlace(a[i], c[i])
    {
      assert SamePlace(a[i], b[i]) && SamePlace(b[i], c[i]);
    }
    forall i | |a| <= i < |c|
      ensures c[i].row.nodeType != ARTICLE && c[i].row.nodeType != CHAPTER
    {
      if i < |b| {
        assert SamePlace(b[i], c[i]);
      }
    }
  }

  lemma SamePlaceParagraphs(a: seq<Slot>, b: seq<Slot>, x: nat, n: string)
    requires |a| <= |b| && forall i :: 0 <= i < |a| ==> SamePlace(a[i], b[i])
    ensures HasParagraph(b, x, n) <==> HasParagraph(a, x, n) || exists i :: |a| <= i < |b| && IsParagraphOf(b[i], x, n)
  {
    if i :| 0 <= i < |a| && IsParagraphOf(a[i], x, n) {
      assert SamePlace(a[i], b[i]) && IsParagraphOf(b[i], x, n);
    }
    if i :| 0 <= i < |b| && IsParagraphOf(b[i], x, n) {
      if i < |a| {
        assert SamePlace(a[i], b[i]) && IsParagraphOf(a[i], x, n);
      }
    }
  }

  lemma PushEvolves(slots: seq<Slot>, p: nat, row: FlatNode)
    requires InBounds(slots) && p < |slots| && row.nodeType != ARTICLE && row.nodeType != CHAPTER
    requires row.nodeType == PARAGRAPH ==> row.paragraph.Some?
    ensures Evolves(slots, Push(slots, p, row), if row.nodeType == PARAGRAPH then {(p, row.paragraph.value)} else {})
  {
    var r := Push(slots, p, row);
    assert forall i :: 0 <= i < |slots| ==> SamePlace(slots[i], r[i]);
    forall x: nat, n
      ensures HasParagraph(r, x, n) <==> HasParagraph(slots, x, n) || IsParagraphOf(r[|slots|], x, n)
    {
      SamePlaceParagraphs(slots, r, x, n);
    }
  }

  lemma AppendEvolves(env: Env, slots: seq<Slot>, i: nat, line: string)
    requires InBounds(slots) && i < |slots|
    ensures Evolves(slots, AppendAt(env, slots, i, line), {})
  {
    var r := AppendAt(env, slots, i, line);
    forall x: nat, n
      ensures HasParagraph(r, x, n) <==> HasParagraph(slots, x, n)
    {
      SamePlaceParagraphs(slots, r, x, n);
    }
  }

  lemma EnsureParagraphEvolves(env: Env, slots: seq<Slot>, a: nat, num: string, initial: Option<string>)
    requires SlotsOk(env, slots) && InBounds(slots) && a < |slots| && slots[a].row.nodeType == ARTICLE
    requires IsDigits(num) && (initial.Some? ==> Trimmed(initial.value))
    ensures Evolves(slots, EnsureParagraph(env, slots, a, num, initial).0, {(a, num)})
  {
    var (r, p) := EnsureParagraph(env, slots, a, num, initial);
    EnsureParagraphOk(env, slots, a, num, initial);
    assert IsParagraphOf(r[p], a, num);
    assert HasParagraph(r, a, num);
    PushEvolves(slots, a, ParagraphRow(env, slots, a, num, TextOr(initial)));
  }

  lemma EnsureClauseEvolves(env: Env, slots: seq<Slot>, p: nat, num: string, initial: Option<string>)
    requires InBounds(slots) && p < |slots|
    ensures Evolves(slots, EnsureClause(env, slots, p, num, initial).0, {})
  {
    PushEvolves(slots, p, ClauseRow(env, slots, p, num, TextOr(initial)));
  }

  lemma {:induction false} ArticlesStay(a: seq<Slot>, b: seq<Slot>, k: nat)
    requires |a| <= k <= |b| && (forall i :: 0 <= i < |a| ==> SamePlace(a[i], b[i]))
    requires forall i :: |a| <= i < |b| ==> b[i].row.nodeType != ARTICLE
    ensures Articles(b, k) == Articles(a, |a|)
    decreases k
  {
    if k > |a| {
      ArticlesStay(a, b, k - 1);
    } else {
      ArticlesSame(a, b, k);
    }
  }

  lemma {:induction false} ArticlesSame(a: seq<Slot>, b: seq<Slot>, k: nat)
    requires k <= |a| <= |b| && forall i :: 0 <= i < |a| ==> SamePlace(a[i], b[i])
    ensures Articles(b, k) == Articles(a, k)
  {
    if k > 0 {
      ArticlesSame(a, b, k - 1);
      assert SamePlace(a[k - 1], b[k - 1]);
    }
  }

  /** The scan's view of the slots after they evolved, when it adds what they gained. */
  lemma EvolvedKnown(a: seq<Slot>, b: seq<Slot>, rd: Readings, next: Readings, more: set<(nat, string)>,
                     adds: set<(nat, string)>)
    requires TokensKnown(a, rd) && ParagraphsKnown(a, rd) && Evolves(a, b, more)
    requires next.articles == rd.articles && next.paragraphs == rd.paragraphs + adds
    requires forall k: nat, n :: (k, n) in adds <==> k < |rd.articles| && (Articles(a, |a|)[k], n) in more
    ensures Articles(b, |b|) == Articles(a, |a|) && TokensKnown(b, next) && ParagraphsKnown(b, next)
  {
    var arts := Articles(a, |a|);
    ArticlesStay(a, b, |b|);
    forall k | 0 <= k < |arts|
      ensures arts[k] < |b| && b[arts[k]].row.article == Some(next.articles[k])
    {
      assert SamePlace(a[arts[k]], b[arts[k]]);
    }
  }

  lemma EvolvedGoverned(s: State, r: State, more: set<(nat, string)>)
    requires Governed(s) && Evolves(s.slots, r.slots, more) && r.chapter == s.chapter
    ensures Governed(r)
  {
    forall i | 0 <= i < |r.slots| && (r.slots[i].row.nodeType == ARTICLE || r.slots[i].row.nodeType == CHAPTER)
      ensures i < |s.slots| && SamePlace(s.slots[i], r.slots[i])
    {
    }
  }

  /** A step that opens no chapter or article. */
  lemma EvolvedFollows(s: State, r: State, rd: Readings, next: Readings, more: set<(nat, string)>,
                       adds: set<(nat, string)>)
    requires Bounded(s) && Bounded(r) && Follows(s, rd) && Evolves(s.slots, r.slots, more) && r.chapter == s.chapter
    requires next.articles == rd.articles && next.paragraphs == rd.paragraphs + adds
    requires forall k: nat, n :: (k, n) in adds <==> k < |rd.articles| && (Articles(s.slots, |s.slots|)[k], n) in more
    requires SimpleKnown(r.simple, next)
    requires match r.article
             case None => next.open.None?
             case Some(a) =>
               next.open.Some? && next.open.value < |rd.articles| &&
               Articles(s.slots, |s.slots|)[next.open.value] == a
    ensures Follows(r, next)
  {
    EvolvedKnown(s.slots, r.slots, rd, next, more, adds);
    EvolvedGoverned(s, r, more);
  }

  /** A step that adds no paragraph and leaves the open article as it is. */
  lemma QuietFollows(s: State, r: State, rd: Readings, next: Readings)
    requires Bounded(s) && Bounded(r) && Follows(s, rd) && Evolves(s.slots, r.slots, {}) && r.chapter == s.chapter
    requires r.simple == s.simple && next.articles == rd.articles && next.paragraphs == rd.paragraphs &&
             next.simple == rd.simple
    requires (r.article == s.article && next.open == rd.open) || (r.article.None? && next.open.None?)
    ensures Follows(r, next)
  {
    EvolvedFollows(s, r, rd, next, {}, {});
  }

  lemma TextFollows(env: Env, s: State, rd: Readings, line: string)
    requires Inv(env, s) && Follows(s, rd)
    ensures Follows(TextStep(env, s, line), rd)
  {
    if s.article.Some? {
      var i := if s.clause.Some? then s.clause.value
               else if s.paragraph.Some? then s.paragraph.value else s.article.value;
      AppendEvolves(env, s.slots, i, line);
      QuietFollows(s, TextStep(env, s, line), rd, rd);
    }
  }

  lemma AnnexFollows(env: Env, s: State, rd: Readings, line: string)
    requires Inv(env, s) && Follows(s, rd)
    ensures Follows(AnnexStep(env, s, line), rd.(open := None))
  {
    PushEvolves(s.slots, ArticleParent(s), AnnexRow(env, s, line));
    QuietFollows(s, AnnexStep(env, s, line), rd, rd.(open := None));
  }

  /** A chapter or an article heading: places stay, no paragraph is added. */
  lemma HeadingPlaces(slots: seq<Slot>, p: nat, row: FlatNode)
    requires InBounds(slots) && p < |slots| && row.nodeType != PARAGRAPH
    ensures var r := Push(slots, p, row);
            (forall i :: 0 <= i < |slots| ==> SamePlace(slots[i], r[i])) &&
            Articles(r, |r|) == Articles(slots, |slots|) + (if row.nodeType == ARTICLE then [|slots|] else []) &&
            forall x: nat, n :: HasParagraph(r, x, n) <==> HasParagraph(slots, x, n)
  {
    var r := Push(slots, p, row);
    assert forall i :: 0 <= i < |slots| ==> SamePlace(slots[i], r[i]);
    ArticlesSame(slots, r, |slots|);
    forall x: nat, n
      ensures HasParagraph(r, x, n) <==> HasParagraph(slots, x, n)
    {
      SamePlaceParagraphs(slots, r, x, n);
    }
  }

  lemma ChapterFollows(env: Env, s: State, rd: Readings, token: string, line: string)
    requires Inv(env, s) && Follows(s, rd)
    ensures Follows(ChapterStep(env, s, token, line), rd.(open := None))
  {
    var row := ChapterRow(env, s.slots, token, line);
    var r := ChapterStep(env, s, token, line);
    HeadingPlaces(s.slots, 0, row);
    HeadingKnown(s.slots, r.slots, rd);
    assert r.slots[|s.slots|].row == row;
    forall i | 0 <= i < |s.slots|
      ensures SamePlace(s.slots[i], r.slots[i])
    {
    }
  }

  lemma HeadingKnown(a: seq<Slot>, b: seq<Slot>, rd: Readings)
    requires TokensKnown(a, rd) && ParagraphsKnown(a, rd) && |a| <= |b|
    requires Articles(b, |b|) == Articles(a, |a|) && forall i :: 0 <= i < |a| ==> SamePlace(a[i], b[i])
    requires forall x: nat, n :: HasParagraph(b, x, n) <==> HasParagraph(a, x, n)
    ensures TokensKnown(b, rd) && ParagraphsKnown(b, rd)
  {
    var arts := Articles(a, |a|);
    forall k | 0 <= k < |arts|
      ensures arts[k] < |b| && b[arts[k]].row.article == Some(rd.articles[k])
    {
      assert SamePlace(a[arts[k]], b[arts[k]]);
    }
  }

  /** Nothing hangs below a slot that does not exist. */
  lemma NothingBelow(env: Env, slots: seq<Slot>, a: nat, num: string)
    requires SlotsOk(env, slots) && a >= |slots|
    ensures !HasParagraph(slots, a, num)
  {
    forall i | 0 <= i < |slots|
      ensures !IsParagraphOf(slots[i], a, num)
    {
      assert SlotOk(env, slots, i);
    }
  }

  lemma ArticleKnown(env: Env, s: State, rd: Readings, token: string, title: Option<string>, line: string)
    requires Inv(env, s) && Follows(s, rd)
    ensures var r := ArticleStep(env, s, token, title, line).slots;
            TokensKnown(r, OpenArticle(rd, token)) && ParagraphsKnown(r, OpenArticle(rd, token))
  {
    var row := ArticleRow(env, s, token, title, line);
    var r := ArticleStep(env, s, token, title, line).slots;
    var arts := Articles(s.slots, |s.slots|);
    HeadingPlaces(s.slots, ArticleParent(s), row);
    assert r[|s.slots|].row == row;
    forall k | 0 <= k < |arts|
      ensures arts[k] < |r| && r[arts[k]].row.article == Some(rd.articles[k])
    {
      assert SamePlace(s.slots[arts[k]], r[arts[k]]);
    }
    forall num
      ensures !HasParagraph(s.slots, |s.slots|, num)
    {
      NothingBelow(env, s.slots, |s.slots|, num);
    }
  }

  lemma ArticleFollows(env: Env, s: State, rd: Readings, token: string, title: Option<string>, line: string)
    requires Inv(env, s) && Follows(s, rd)
    ensures Follows(ArticleStep(env, s, token, title, line), OpenArticle(rd, token))
  {
    var r := ArticleStep(env, s, token, title, line);
    ArticleKnown(env, s, rd, token, title, line);
    HeadingPlaces(s.slots, ArticleParent(s), ArticleRow(env, s, token, title, line));
    assert r.slots[|s.slots|].row == ArticleRow(env, s, token, title, line) &&
           r.slots[|s.slots|].parent == ArticleParent(s);
    forall i | 0 <= i < |s.slots|
      ensures SamePlace(s.slots[i], r.slots[i])
    {
    }
  }

  /** A paragraph is opened below article number `k`, which becomes the open one; the simple set may grow. */
  lemma ParagraphFollows(s: State, r: State, rd: Readings, next: Readings, k: nat, num: string)
    requires Bounded(s) && Bounded(r) && Follows(s, rd) && k < |rd.articles| && r.chapter == s.chapter
    requires Evolves(s.slots, r.slots, {(Articles(s.slots, |s.slots|)[k], num)})
    requires r.article == Some(Articles(s.slots, |s.slots|)[k]) && next.open == Some(k)
    requires next.articles == rd.articles && next.paragraphs == rd.paragraphs + {(k, num)} &&
             SimpleKnown(r.simple, next)
    ensures Follows(r, next)
  {
    var arts := Articles(s.slots, |s.slots|);
    ArticlesMembers(s.slots, |s.slots|);
    forall j: nat, n
      ensures (j, n) in {(k, num)} <==> j < |rd.articles| && (arts[j], n) in {(arts[k], num)}
    {
      assert j < |arts| && j < k ==> arts[j] < arts[k];
      assert j < |arts| && k < j ==> arts[k] < arts[j];
    }
    EvolvedFollows(s, r, rd, next, {(arts[k], num)}, {(k, num)});
  }

  lemma SimpleFollows(env: Env, s: State, rd: Readings, num: string, rest: string)
    requires Inv(env, s) && Follows(s, rd) && Sound(rd) && s.article.Some? && IsDigits(num) && Trimmed(rest)
    ensures var k := rd.open.value;
            Follows(SimpleStep(env, s, num, rest),
                    rd.(paragraphs := rd.paragraphs + {(k, num)}, simple := rd.simple + {(rd.articles[k], num)}))
  {
    var k := rd.open.value;
    var a := s.article.value;
    var next := rd.(paragraphs := rd.paragraphs + {(k, num)}, simple := rd.simple + {(rd.articles[k], num)});
    var (slots, p) := EnsureParagraph(env, s.slots, a, num, Some(rest));
    var r := SimpleStep(env, s, num, rest);
    EnsureParagraphOk(env, s.slots, a, num, Some(rest));
    EnsureParagraphFrame(env, s.slots, a, num, Some(rest));
    EnsureParagraphEvolves(env, s.slots, a, num, Some(rest));
    AppendEvolves(env, slots, p, rest);
    EvolvesTrans(s.slots, slots, r.slots, {(a, num)}, {});
    assert {(a, num)} + {} == {(a, num)};
    ParagraphAt(env, slots, p, a, num);
    SimpleAdds(s.simple, rd, rd.articles[k], num, next);
    ParagraphFollows(s, r, rd, next, k, num);
  }

  lemma SimpleAdds(simple: set<string>, rd: Readings, t: string, num: string, next: Readings)
    requires SimpleKnown(simple, rd) && IsArticleToken(t) && IsDigits(num) && next.simple == rd.simple + {(t, num)}
    ensures SimpleKnown(simple + {Spell(ParagraphPath(t, num))}, next)
  {
    var after := simple + {Spell(ParagraphPath(t, num))};
    forall u, m | IsArticleToken(u) && IsDigits(m)
      ensures (u, m) in next.simple <==> SimpleAt(after, u, m)
    {
      if Spell(ParagraphPath(u, m)) == Spell(ParagraphPath(t, num)) {
        SpellInjective(ParagraphPath(u, m), ParagraphPath(t, num));
      }
    }
  }

  lemma BelowEvolves(env: Env, slots: seq<Slot>, a: nat, p: nat, clause: string, sub: Option<string>, rest: string)
    requires InBounds(slots) && a < |slots| && p < |slots|
    ensures var (r, c) := EnsureClause(env, slots, p, clause, if sub.Some? then None else Some(rest));
            Evolves(slots, if sub.None? then AppendAt(env, r, c, rest)
                           else Push(r, c, SubClauseRow(env, r, a, p, c, clause, sub.value, rest)), {})
  {
    var initial := if sub.Some? then None else Some(rest);
    var (r, c) := EnsureClause(env, slots, p, clause, initial);
    EnsureClauseEvolves(env, slots, p, clause, initial);
    if sub.None? {
      AppendEvolves(env, r, c, rest);
      EvolvesTrans(slots, r, AppendAt(env, r, c, rest), {}, {});
    } else {
      var row := SubClauseRow(env, r, a, p, c, clause, sub.value, rest);
      PushEvolves(r, c, row);
      EvolvesTrans(slots, r, Push(r, c, row), {}, {});
    }
  }

  lemma ParagraphStepEvolves(env: Env, s: State, target: nat, l: Line)
    requires Inv(env, s) && WellFormed(l) && l.Qualified?
    requires 0 < target < |s.slots| && s.slots[target].row.nodeType == ARTICLE
    ensures Evolves(s.slots, ParagraphStep(env, s, target, l.para, l.clause, l.sub, l.rest).slots, {(target, l.para)})
  {
    var initial := if l.clause.Some? then None else Some(l.rest);
    var (slots, p) := EnsureParagraph(env, s.slots, target, l.para, initial);
    var r := ParagraphStep(env, s, target, l.para, l.clause, l.sub, l.rest);
    EnsureParagraphEvolves(env, s.slots, target, l.para, initial);
    if l.clause.None? {
      AppendEvolves(env, slots, p, l.rest);
    } else {
      BelowEvolves(env, slots, target, p, l.clause.value, l.sub, l.rest);
    }
    EvolvesTrans(s.slots, slots, r.slots, {(target, l.para)}, {});
    assert {(target, l.para)} + {} == {(target, l.para)};
  }

  lemma ClauseStepEvolves(env: Env, s: State, target: nat, p: nat, num: string, rest: string)
    requires Bounded(s) && target < |s.slots| && p < |s.slots|
    ensures Evolves(s.slots, SimpleClauseStep(env, s, target, p, num, rest).slots, {})
  {
    BelowEvolves(env, s.slots, target, p, num, None, rest);
  }

  /** A line N.M read as a clause adds no paragraph. */
  lemma ClauseLineFollows(env: Env, s: State, rd: Readings, l: Line, target: nat, p: nat)
    requires Inv(env, s) && Follows(s, rd) && Sound(rd) && WellFormed(l) && l.Qualified? && s.article.Some? &&
             l.clause.None?
    requires target == TargetArticle(s, ArticleToken(l.main, l.bis))
    requires FindSimple(s.slots, s.slots[target].children, l.main, s.simple) == Some(p)
    ensures Follows(Step(env, s, l), ReadStep(rd, l))
  {
    TargetKnown(env, s, rd, ArticleToken(l.main, l.bis));
    TargetIsArticle(env, s, ArticleToken(l.main, l.bis));
    ReadingPredicted(env, s, rd, l);
    ClauseStepEvolves(env, s, target, p, l.para, l.rest);
    EvolvedFollows(s, Step(env, s, l), rd, ReadStep(rd, l), {}, {});
  }

  /** Any other qualified line opens the paragraph that it names. */
  lemma ParagraphLineFollows(env: Env, s: State, rd: Readings, l: Line, target: nat)
    requires Inv(env, s) && Follows(s, rd) && Sound(rd) && WellFormed(l) && l.Qualified? && s.article.Some?
    requires target == TargetArticle(s, ArticleToken(l.main, l.bis))
    requires l.clause.Some? || FindSimple(s.slots, s.slots[target].children, l.main, s.simple).None?
    ensures Follows(Step(env, s, l), ReadStep(rd, l))
  {
    TargetKnown(env, s, rd, ArticleToken(l.main, l.bis));
    TargetIsArticle(env, s, ArticleToken(l.main, l.bis));
    ReadingPredicted(env, s, rd, l);
    ParagraphStepEvolves(env, s, target, l);
    ParagraphFollows(s, Step(env, s, l), rd, ReadStep(rd, l), TargetOf(rd, ArticleToken(l.main, l.bis)), l.para);
  }

  lemma QualifiedFollows(env: Env, s: State, rd: Readings, l: Line)
    requires Inv(env, s) && Follows(s, rd) && Sound(rd) && WellFormed(l) && l.Qualified? && s.article.Some?
    ensures Follows(Step(env, s, l), ReadStep(rd, l))
  {
    var target := TargetArticle(s, ArticleToken(l.main, l.bis));
    var simple := if l.clause.None? then FindSimple(s.slots, s.slots[target].children, l.main, s.simple) else None;
    match simple {
      case Some(p) => ClauseLineFollows(env, s, rd, l, target, p);
      case None => ParagraphLineFollows(env, s, rd, l, target);
    }
  }

  lemma StepFollows(env: Env, s: State, rd: Readings, l: Line)
    requires Inv(env, s) && Follows(s, rd) && Sound(rd) && WellFormed(l)
    ensures Follows(Step(env, s, l), ReadStep(rd, l))
  {
    match l {
      case Chrome =>
      case Chapter(line, value, bis) => ChapterFollows(env, s, rd, ArticleToken(NatToString(value), bis), line);
      case ArticleWord(line, value, title) => ArticleFollows(env, s, rd, NatToString(value), title, line);
      case ArticleNumber(line, main, bis, title) => ArticleFollows(env, s, rd, ArticleToken(main, bis), title, line);
      case Annex(line) => AnnexFollows(env, s, rd, line);
      case Qualified(line, _, _, _, _, _, _) =>
        if s.article.Some? {
          QualifiedFollows(env, s, rd, l);
        } else {
          TextFollows(env, s, rd, line);
        }
      case Simple(line, num, rest) =>
        if s.article.Some? {
          SimpleFollows(env, s, rd, num, rest);
        } else {
          TextFollows(env, s, rd, line);
        }
      case Plain(line) => TextFollows(env, s, rd, line);
    }
  }

  lemma StartFollows(env: Env, title: string)
    ensures Follows(Start(env, title), NOTHING_READ)
  {
    var slots := Start(env, title).slots;
    assert Articles(slots, 1) == [];
  }

  /** After any lines the scan knows the open article, its paragraphs and the simple ones. */
  lemma {:induction false} RunFollows(env: Env, title: string, lines: seq<Line>)
    requires ValidEnv(env) && AllWellFormed(lines)
    ensures Follows(Run(env, title, lines), ReadLines(lines))
    decreases |lines|
  {
    if lines == [] {
      StartFollows(env, title);
    } else {
      var before := lines[..|lines| - 1];
      RunFollows(env, title, before);
      RunInv(env, title, before);
      StepFollows(env, Run(env, title, before), ReadLines(before), lines[|lines| - 1]);
    }
  }
}
