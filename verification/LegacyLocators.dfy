/**
 Locators for migrated articles of one document: the article number, made unique with the
 legacy id when several articles share it.
 */
module LegacyLocators {
  import opened Prelude
  import opened LocatorGrammar

  datatype Article = Article(id: string, number: Option<string>, order: int)

  const SUFFIX := "__legacyId-"

  function Decimal(n: int): (r: string) {
    if n < 0 then "-" + NatToString(-n) else NatToString(n)
  }

  function Base(a: Article): (r: string) {
    "article-" + if a.number.Some? then a.number.value else Decimal(a.order)
  }

  function Suffixed(a: Article): (r: string) {
    Base(a) + (SUFFIX + a.id)
  }

  // ----- Order -----

  predicate Less(a: string, b: string) {
    b != "" && (a == "" || a[0] < b[0] || (a[0] == b[0] && Less(a[1..], b[1..])))
  }

  lemma {:induction false} LessTotal(a: string, b: string)
    ensures a == b || Less(a, b) || Less(b, a)
    ensures !(Less(a, b) && Less(b, a)) && !Less(a, a)
  {
    if a != "" && b != "" && a[0] == b[0] {
      LessTotal(a[1..], b[1..]);
      assert a == [a[0]] + a[1..] && b == [b[0]] + b[1..];
    }
    if a != "" {
      LessTotal(a[1..], a[1..]);
    }
  }

  lemma {:induction false} LessTransitive(a: string, b: string, c: string)
    requires Less(a, b) && Less(b, c)
    ensures Less(a, c)
  {
    if a != "" && a[0] == b[0] == c[0] {
      LessTransitive(a[1..], b[1..], c[1..]);
    }
  }

  predicate Before(a: Article, b: Article) {
    a.order < b.order || (a.order == b.order && Less(a.id, b.id))
  }

  ghost predicate UniqueArticles(articles: seq<Article>) {
    forall i, j :: 0 <= i < j < |articles| ==> articles[i].id != articles[j].id
  }

  ghost predicate Ordered(s: seq<Article>) {
    forall i, j :: 0 <= i < j < |s| ==> Before(s[i], s[j])
  }

  function Insert(s: seq<Article>, a: Article): (r: seq<Article>)
    decreases |s|
  {
    if s == [] then [a]
    else if Before(a, s[|s| - 1]) then Insert(s[..|s| - 1], a) + [s[|s| - 1]]
    else s + [a]
  }

  /** The stable sort by order, then id. */
  function Sort(articles: seq<Article>): (r: seq<Article>)
    decreases |articles|
  {
    if articles == [] then [] else Insert(Sort(articles[..|articles| - 1]), articles[|articles| - 1])
  }

  lemma {:induction false} InsertMembers(s: seq<Article>, a: Article)
    ensures multiset(Insert(s, a)) == multiset(s) + multiset{a}
    decreases |s|
  {
    if s != [] {
      assert s == s[..|s| - 1] + [s[|s| - 1]];
      if Before(a, s[|s| - 1]) {
        InsertMembers(s[..|s| - 1], a);
      }
    }
  }

  lemma BeforeTransitive(a: Article, b: Article, c: Article)
    requires Before(a, b) && Before(b, c)
    ensures Before(a, c)
  {
    if a.order == b.order == c.order {
      LessTransitive(a.id, b.id, c.id);
    }
  }

  lemma {:induction false} InsertOrdered(s: seq<Article>, a: Article)
    requires Ordered(s) && forall i :: 0 <= i < |s| ==> s[i].id != a.id
    ensures Ordered(Insert(s, a))
    decreases |s|
  {
    if s != [] {
      var before, last := s[..|s| - 1], s[|s| - 1];
      LessTotal(a.id, last.id);
      if Before(a, last) {
        InsertOrdered(before, a);
        InsertMembers(before, a);
        var longer := Insert(before, a);
        forall i | 0 <= i < |longer|
          ensures Before(longer[i], last)
        {
          assert longer[i] in multiset(longer);
          assert longer[i] == a || longer[i] in before;
        }
      } else {
        forall i | 0 <= i < |s|
          ensures Before(s[i], a)
        {
          if i < |s| - 1 {
            BeforeTransitive(s[i], last, a);
          }
        }
      }
    }
  }

  lemma {:induction false} SortSorts(articles: seq<Article>)
    requires UniqueArticles(articles)
    ensures multiset(Sort(articles)) == multiset(articles) && Ordered(Sort(articles))
    decreases |articles|
  {
    if articles != [] {
      var before, last := articles[..|articles| - 1], articles[|articles| - 1];
      assert articles == before + [last];
      SortSorts(before);
      InsertMembers(Sort(before), last);
      forall i | 0 <= i < |Sort(before)|
        ensures Sort(before)[i].id != last.id
      {
        assert Sort(before)[i] in multiset(Sort(before));
        assert Sort(before)[i] in before;
      }
      InsertOrdered(Sort(before), last);
    }
  }

  lemma SortMembers(articles: seq<Article>, a: Article)
    requires UniqueArticles(articles)
    ensures a in Sort(articles) <==> a in articles
  {
    SortSorts(articles);
    assert a in Sort(articles) <==> a in multiset(Sort(articles));
    assert a in articles <==> a in multiset(articles);
  }

  // ----- The assignment, by membership alone -----

  /** No other article with the same base comes before `a`. */
  predicate IsFirst(articles: seq<Article>, a: Article) {
    forall b :: b in articles && Base(b) == Base(a) && b != a ==> Before(a, b)
  }

  function Assigned(articles: seq<Article>, a: Article): (r: string) {
    if IsFirst(articles, a) then Base(a) else Suffixed(a)
  }

  /** The number shown for the article: its own, or else its place. */
  function Shown(a: Article): (r: string) {
    if a.number.None? then Decimal(a.order) else a.number.value
  }

  /** No other article that shows the same number comes earlier, by order and then by id. */
  ghost predicate FirstShown(articles: seq<Article>, a: Article) {
    forall b :: b in articles && b != a && Shown(b) == Shown(a) ==>
      a.order < b.order || (a.order == b.order && Less(a.id, b.id))
  }

  lemma SameBase(a: Article, b: Article)
    ensures Base(a) == Base(b) <==> Shown(a) == Shown(b)
  {
    if Base(a) == Base(b) {
      PrefixCancel("article-", Shown(a), Shown(b));
    }
  }

  /** The first article that shows a number keeps the plain locator; every later one adds its own id. */
  lemma AssignedReads(articles: seq<Article>, a: Article)
    ensures FirstShown(articles, a) ==> Assigned(articles, a) == "article-" + Shown(a)
    ensures !FirstShown(articles, a) ==> Assigned(articles, a) == "article-" + Shown(a) + "__legacyId-" + a.id
  {
    forall b
      ensures Base(a) == Base(b) <==> Shown(a) == Shown(b)
    {
      SameBase(a, b);
    }
    assert Base(a) + ("__legacyId-" + a.id) == Base(a) + "__legacyId-" + a.id;
  }

  /** The order in which a query returned the articles plays no part. */
  lemma OrderIndependent(a: seq<Article>, b: seq<Article>, x: Article)
    requires multiset(a) == multiset(b)
    ensures Assigned(a, x) == Assigned(b, x)
  {
    forall y
      ensures y in a <==> y in b
    {
      assert y in a <==> y in multiset(a);
      assert y in b <==> y in multiset(b);
    }
  }

  /** Articles that come later, in order and id, change no earlier assignment. */
  lemma LaterAdditionsKeepLocators(articles: seq<Article>, more: seq<Article>, x: Article)
    requires x in articles && forall a, b :: a in articles && b in more ==> Before(a, b)
    ensures Assigned(articles + more, x) == Assigned(articles, x)
  {
    if !IsFirst(articles, x) {
      var b :| b in articles && Base(b) == Base(x) && b != x && !Before(x, b);
      assert b in articles + more;
    }
  }

  /** The text after the first suffix marker of a suffixed locator is the id. */
  lemma SuffixSplits(a: Article, b: Article)
    requires !Includes(Base(a), SUFFIX) && !Includes(Base(b), SUFFIX)
    ensures Suffixed(a) == Suffixed(b) ==> a.id == b.id
  {
    if Suffixed(a) == Suffixed(b) {
      if |Base(a)| < |Base(b)| {
        MarkerInside(Base(a), a.id, Base(b), b.id);
      } else if |Base(b)| < |Base(a)| {
        MarkerInside(Base(b), b.id, Base(a), a.id);
      } else {
        var s := Suffixed(a);
        var n := |Base(a)| + |SUFFIX|;
        assert a.id == s[n..] && b.id == s[n..];
      }
    }
  }

  lemma IdsDiffer(articles: seq<Article>, a: Article, b: Article)
    requires UniqueArticles(articles) && a in articles && b in articles && a != b
    ensures a.id != b.id
  {
    var i :| 0 <= i < |articles| && articles[i] == a;
    var j :| 0 <= j < |articles| && articles[j] == b;
    assert i < j || j < i;
  }

  lemma OnlyLastIsDash(k: nat)
    requires k < |SUFFIX|
    ensures |SUFFIX| == 11 && (SUFFIX[k] == '-' <==> k == 10)
  {
    assert SUFFIX == ['_', '_', 'l', 'e', 'g', 'a', 'c', 'y', 'I', 'd', '-'];
  }

  lemma ShiftedDash(d: string, y: string)
    requires 0 < |d| <= 10
    ensures (d + (SUFFIX + y))[10] != '-'
  {
    OnlyLastIsDash(10 - |d|);
    assert (d + (SUFFIX + y))[10] == SUFFIX[10 - |d|];
  }

  /** The marker cannot overlap itself: its last character occurs nowhere else in it. */
  lemma NoSelfOverlap(d: string, x: string, y: string)
    requires d != "" && SUFFIX + x == d + (SUFFIX + y)
    ensures SUFFIX <= d
  {
    var s := SUFFIX + x;
    OnlyLastIsDash(10);
    assert s[10] == '-';
    if |d| <= 10 {
      ShiftedDash(d, y);
    } else {
      assert s[..11] == SUFFIX && s[..11] == d[..11];
    }
  }

  lemma SplitLonger(a: string, u: string, b: string, v: string) returns (d: string)
    requires a + u == b + v && |a| < |b|
    ensures d != "" && b == a + d && u == d + v
  {
    var s := a + u;
    d := b[|a|..];
    assert a == s[..|a|] && b == s[..|b|];
    assert u == s[|a|..] && v == s[|b|..];
    assert s[|a|..] == s[|a|..|b|] + s[|b|..];
  }

  /** A marker that starts earlier lies inside the longer base. */
  lemma MarkerInside(a: string, x: string, b: string, y: string)
    requires |a| < |b| && a + (SUFFIX + x) == b + (SUFFIX + y)
    ensures Includes(b, SUFFIX)
  {
    var d := SplitLonger(a, SUFFIX + x, b, SUFFIX + y);
    NoSelfOverlap(d, x, y);
    IncludesBehind(a, d, SUFFIX);
  }

  lemma IncludesBehind(a: string, d: string, needle: string)
    requires needle <= d && needle != ""
    ensures Includes(a + d, needle)
  {
    assert (a + d)[|a|..|a| + |needle|] == needle;
    IncludesAt(a + d, |a|, needle);
  }

  lemma {:induction false} IncludesAt(s: string, at: nat, needle: string)
    requires at + |needle| <= |s| && s[at..at + |needle|] == needle && needle != ""
    ensures Includes(s, needle)
    decreases at
  {
    if at == 0 {
      assert s[..|needle|] == needle;
    } else {
      assert s[1..][at - 1..at - 1 + |needle|] == s[at..at + |needle|];
      IncludesAt(s[1..], at - 1, needle);
    }
  }

  lemma SuffixedIncludes(a: Article)
    ensures Includes(Suffixed(a), SUFFIX)
  {
    IncludesBehind(Base(a), SUFFIX + a.id, SUFFIX);
  }

  /** Distinct articles get distinct locators when no base contains the marker. */
  lemma LocatorsInjective(articles: seq<Article>, a: Article, b: Article)
    requires UniqueArticles(articles) && a in articles && b in articles && a != b
    requires !Includes(Base(a), SUFFIX) && !Includes(Base(b), SUFFIX)
    ensures Assigned(articles, a) != Assigned(articles, b)
  {
    SuffixedIncludes(a);
    SuffixedIncludes(b);
    if Base(a) == Base(b) && IsFirst(articles, a) && IsFirst(articles, b) {
      LessTotal(a.id, b.id);
    }
    SuffixSplits(a, b);
    IdsDiffer(articles, a, b);
  }

  /** A number that contains the marker can take another article's locator. */
  lemma MarkerInNumberCollides(order: int)
    ensures var a := Article("a", Some("1"), order);
            var b := Article("b", Some("1"), order);
            var c := Article("c", Some("1" + SUFFIX + "b"), order);
            Assigned([a, b, c], b) == Assigned([a, b, c], c)
  {
    var a := Article("a", Some("1"), order);
    var b := Article("b", Some("1"), order);
    var c := Article("c", Some("1" + SUFFIX + "b"), order);
    assert !IsFirst([a, b, c], b) by {
      assert a in [a, b, c] && !Before(b, a);
    }
    assert Base(c) == Base(b) + SUFFIX + "b";
    assert |Base(c)| != |Base(a)|;
  }

  // ----- The grouping loops -----

  /** The articles with one base, in order. */
  function Sharing(s: seq<Article>, base: string): (r: seq<Article>)
    decreases |s|
  {
    if s == [] then []
    else Sharing(s[..|s| - 1], base) + if Base(s[|s| - 1]) == base then [s[|s| - 1]] else []
  }

  lemma {:induction false} SharingMembers(s: seq<Article>, base: string)
    ensures forall a :: a in Sharing(s, base) <==> a in s && Base(a) == base
    ensures Ordered(s) ==> Ordered(Sharing(s, base))
    decreases |s|
  {
    if s != [] {
      var before, last := s[..|s| - 1], s[|s| - 1];
      assert s == before + [last];
      SharingMembers(before, base);
      if Ordered(s) {
        forall i | 0 <= i < |Sharing(before, base)|
          ensures Before(Sharing(before, base)[i], last)
        {
          assert Sharing(before, base)[i] in before;
        }
      }
    }
  }

  /** How many articles the groups of these bases hold. */
  function Held(groups: map<string, seq<Article>>, keys: seq<string>): (r: nat)
    requires forall k :: k in keys ==> k in groups
    decreases |keys|
  {
    if keys == [] then 0
    else
      assert keys[|keys| - 1] in keys;
      Held(groups, keys[..|keys| - 1]) + |groups[keys[|keys| - 1]]|
  }

  lemma {:induction false} HeldGrows(groups: map<string, seq<Article>>, keys: seq<string>, base: string,
                                     group: seq<Article>)
    requires NoRepeats(keys) && base in groups && forall k :: k in keys ==> k in groups
    ensures Held(groups[base := group], keys) ==
            Held(groups, keys) + if base in keys then |group| - |groups[base]| else 0
    decreases |keys|
  {
    if keys != [] {
      var before, last := keys[..|keys| - 1], keys[|keys| - 1];
      assert keys == before + [last];
      HeldGrows(groups, before, base, group);
    }
  }

  lemma {:induction false} HeldFrame(groups: map<string, seq<Article>>, keys: seq<string>, base: string,
                                     group: seq<Article>)
    requires base !in keys && forall k :: k in keys ==> k in groups
    ensures Held(groups[base := group], keys) == Held(groups, keys)
    decreases |keys|
  {
    if keys != [] {
      var before, last := keys[..|keys| - 1], keys[|keys| - 1];
      assert keys == before + [last];
      HeldFrame(groups, before, base, group);
    }
  }

  ghost predicate SameKeys(groups: map<string, seq<Article>>, keys: seq<string>) {
    NoRepeats(keys) && forall k :: k in keys <==> k in groups
  }

  /** The group of every base among the articles seen so far; bases of no article have none. */
  ghost predicate GroupsRight(s: seq<Article>, groups: map<string, seq<Article>>) {
    forall base :: GroupRight(s, groups, base)
  }

  ghost predicate GroupRight(s: seq<Article>, groups: map<string, seq<Article>>, base: string) {
    if base in groups then groups[base] == Sharing(s, base) && groups[base] != [] else Sharing(s, base) == []
  }

  ghost predicate Grouped(s: seq<Article>, groups: map<string, seq<Article>>, keys: seq<string>) {
    SameKeys(groups, keys) && GroupsRight(s, groups) && Held(groups, keys) == |s|
  }

  function Joined(groups: map<string, seq<Article>>, a: Article): (r: map<string, seq<Article>>) {
    groups[Base(a) := (if Base(a) in groups then groups[Base(a)] else []) + [a]]
  }

  lemma JoinedRight(s: seq<Article>, a: Article, groups: map<string, seq<Article>>, base: string)
    requires GroupRight(s, groups, base)
    ensures GroupRight(s + [a], Joined(groups, a), base)
  {
    assert (s + [a])[..|s|] == s;
  }

  lemma JoinedHeld(a: Article, groups: map<string, seq<Article>>, keys: seq<string>)
    requires SameKeys(groups, keys)
    ensures var more := if Base(a) in groups then keys else keys + [Base(a)];
            SameKeys(Joined(groups, a), more) && Held(Joined(groups, a), more) == Held(groups, keys) + 1
  {
    var base := Base(a);
    if base in groups {
      HeldGrows(groups, keys, base, groups[base] + [a]);
    } else {
      HeldFrame(groups, keys, base, [] + [a]);
      assert (keys + [base])[..|keys|] == keys;
    }
  }

  lemma GroupedStep(s: seq<Article>, a: Article, groups: map<string, seq<Article>>, keys: seq<string>)
    requires Grouped(s, groups, keys)
    ensures Grouped(s + [a], Joined(groups, a), if Base(a) in groups then keys else keys + [Base(a)])
  {
    JoinedHeld(a, groups, keys);
    forall base
      ensures GroupRight(s + [a], Joined(groups, a), base)
    {
      assert GroupRight(s, groups, base);
      JoinedRight(s, a, groups, base);
    }
  }

  method AddToGroup(groups: map<string, seq<Article>>, keys: seq<string>, a: Article)
    returns (longer: map<string, seq<Article>>, more: seq<string>)
    ensures longer == Joined(groups, a) && more == if Base(a) in groups then keys else keys + [Base(a)]
  {
    longer, more := groups, keys;
    if Base(a) !in longer {
      longer := longer[Base(a) := []];
      more := more + [Base(a)];
    }
    longer := longer[Base(a) := longer[Base(a)] + [a]];
  }

  method GroupByBase(s: seq<Article>) returns (groups: map<string, seq<Article>>, keys: seq<string>)
    ensures Grouped(s, groups, keys)
  {
    groups, keys := map[], [];
    for k := 0 to |s|
      invariant Grouped(s[..k], groups, keys)
    {
      assert s[..k + 1] == s[..k] + [s[k]];
      GroupedStep(s[..k], s[k], groups, keys);
      groups, keys := AddToGroup(groups, keys, s[k]);
    }
    assert s[..|s|] == s;
  }

  datatype Collision = Collision(base: string, articleIds: seq<string>)

  function IdsOf(s: seq<Article>): (r: seq<string>)
    ensures |r| == |s| && forall i :: 0 <= i < |r| ==> r[i] == s[i].id
  {
    seq(|s|, i requires 0 <= i < |s| => s[i].id)
  }

  /** The articles beyond the first of every reported group. */
  function Excess(collisions: seq<Collision>): (r: int)
    decreases |collisions|
  {
    if collisions == [] then 0
    else Excess(collisions[..|collisions| - 1]) + |collisions[|collisions| - 1].articleIds| - 1
  }

  /** Members of a group in order: the first is first, no other is. */
  lemma GroupFirst(articles: seq<Article>, base: string, i: nat)
    requires UniqueArticles(articles) && i < |Sharing(Sort(articles), base)|
    ensures var a := Sharing(Sort(articles), base)[i];
            a in articles && Base(a) == base && (IsFirst(articles, a) <==> i == 0)
  {
    var group := Sharing(Sort(articles), base);
    SortSorts(articles);
    SharingMembers(Sort(articles), base);
    assert group[i] in group && group[0] in group;
    SortMembers(articles, group[i]);
    SortMembers(articles, group[0]);
    if i == 0 {
      forall b | b in articles && Base(b) == base && b != group[0]
        ensures Before(group[0], b)
      {
        SortMembers(articles, b);
        var j :| 0 <= j < |group| && group[j] == b;
      }
    } else {
      LessTotal(group[0].id, group[i].id);
    }
  }

  /** The locators of the articles whose bases are among the first `n` keys, and no others. */
  ghost predicate AssignedFor(articles: seq<Article>, keys: seq<string>, locatorById: map<string, string>) {
    forall a :: a in articles ==> AssignedOne(articles, a, Base(a) in keys, locatorById)
  }

  predicate AssignedOne(articles: seq<Article>, a: Article, done: bool, locatorById: map<string, string>) {
    done ==> a.id in locatorById && locatorById[a.id] == Assigned(articles, a)
  }

  /** The members of the group have their locators; every other entry is as before. */
  ghost predicate GroupAssigned(
    articles: seq<Article>, group: seq<Article>, before: map<string, string>, after: map<string, string>)
  {
    (forall i :: 0 <= i < |group| ==> AssignedOne(articles, group[i], true, after)) &&
    forall id :: id !in IdsOf(group) ==> SameEntry(before, after, id)
  }

  predicate SameEntry(before: map<string, string>, after: map<string, string>, id: string) {
    (id in after <==> id in before) && (id in before ==> id in after && after[id] == before[id])
  }

  /** What the loop over a group uses: its members are articles with this base, the first is first, ids differ. */
  ghost predicate IsGroup(articles: seq<Article>, base: string, group: seq<Article>) {
    (forall i :: 0 <= i < |group| ==> Base(group[i]) == base && (IsFirst(articles, group[i]) <==> i == 0)) &&
    forall i, j :: 0 <= i < j < |group| ==> group[i].id != group[j].id
  }

  lemma SharingIsGroup(articles: seq<Article>, base: string)
    requires UniqueArticles(articles)
    ensures IsGroup(articles, base, Sharing(Sort(articles), base))
  {
    var group := Sharing(Sort(articles), base);
    forall i | 0 <= i < |group|
      ensures Base(group[i]) == base && (IsFirst(articles, group[i]) <==> i == 0)
    {
      GroupFirst(articles, base, i);
    }
    forall i, j | 0 <= i < j < |group|
      ensures group[i].id != group[j].id
    {
      GroupIdsDiffer(articles, base, j);
    }
  }

  lemma AssignNext(articles: seq<Article>, base: string, group: seq<Article>, i: nat,
                   before: map<string, string>, after: map<string, string>)
    requires IsGroup(articles, base, group) && i < |group| && GroupAssigned(articles, group[..i], before, after)
    ensures GroupAssigned(articles, group[..i + 1], before,
                          after[group[i].id := if i == 0 then base else base + (SUFFIX + group[i].id)])
  {
    var next := after[group[i].id := if i == 0 then base else base + (SUFFIX + group[i].id)];
    var upTo := group[..i + 1];
    forall j | 0 <= j < |upTo|
      ensures AssignedOne(articles, upTo[j], true, next)
    {
      if j < i {
        assert AssignedOne(articles, group[..i][j], true, after);
      }
    }
    forall id | id !in IdsOf(upTo)
      ensures SameEntry(before, next, id)
    {
      assert IdsOf(upTo)[i] == group[i].id;
      assert IdsOf(upTo)[..i] == IdsOf(group[..i]);
      assert SameEntry(before, after, id);
    }
  }

  lemma GroupIdsDiffer(articles: seq<Article>, base: string, i: nat)
    requires UniqueArticles(articles) && i < |Sharing(Sort(articles), base)|
    ensures var group := Sharing(Sort(articles), base); forall j :: 0 <= j < i ==> group[j].id != group[i].id
  {
    var group := Sharing(Sort(articles), base);
    SortSorts(articles);
    SharingMembers(Sort(articles), base);
    assert group[i] in group;
    SortMembers(articles, group[i]);
    forall j | 0 <= j < i
      ensures group[j].id != group[i].id
    {
      assert group[j] in group;
      SortMembers(articles, group[j]);
      LessTotal(group[j].id, group[i].id);
      IdsDifferUnlessSame(articles, group[j], group[i]);
    }
  }

  lemma IdsDifferUnlessSame(articles: seq<Article>, a: Article, b: Article)
    requires UniqueArticles(articles) && a in articles && b in articles
    ensures a == b || a.id != b.id
  {
    if a != b {
      IdsDiffer(articles, a, b);
    }
  }

  lemma KeyDone(articles: seq<Article>, keys: seq<string>, base: string, before: map<string, string>,
                after: map<string, string>)
    requires UniqueArticles(articles) && base !in keys && AssignedFor(articles, keys, before)
    requires GroupAssigned(articles, Sharing(Sort(articles), base), before, after)
    ensures AssignedFor(articles, keys + [base], after)
  {
    var group := Sharing(Sort(articles), base);
    SharingMembers(Sort(articles), base);
    forall a | a in articles
      ensures AssignedOne(articles, a, Base(a) in keys + [base], after)
    {
      SortMembers(articles, a);
      if Base(a) == base {
        var i :| 0 <= i < |group| && group[i] == a;
        assert AssignedOne(articles, group[i], true, after);
      } else {
        OtherGroup(articles, base, a);
        assert SameEntry(before, after, a.id);
        assert AssignedOne(articles, a, Base(a) in keys, before);
      }
    }
  }

  lemma OtherGroup(articles: seq<Article>, base: string, a: Article)
    requires UniqueArticles(articles) && a in articles && Base(a) != base
    ensures a.id !in IdsOf(Sharing(Sort(articles), base))
  {
    var group := Sharing(Sort(articles), base);
    SharingMembers(Sort(articles), base);
    forall i | 0 <= i < |group|
      ensures group[i].id != a.id
    {
      assert group[i] in group;
      SortMembers(articles, group[i]);
      IdsDiffer(articles, group[i], a);
    }
  }

  lemma BasesCounted(articles: seq<Article>, groups: map<string, seq<Article>>, keys: seq<string>)
    requires UniqueArticles(articles) && Grouped(Sort(articles), groups, keys)
    ensures |keys| == |set a | a in articles :: Base(a)| && |articles| == Held(groups, keys)
    ensures forall a :: a in articles ==> Base(a) in keys
  {
    var bases := set a | a in articles :: Base(a);
    SortSorts(articles);
    assert |multiset(Sort(articles))| == |multiset(articles)|;
    forall base
      ensures base in keys <==> base in bases
    {
      assert GroupRight(Sort(articles), groups, base);
      SharingMembers(Sort(articles), base);
      SomeMember(Sharing(Sort(articles), base));
      forall a | a in articles
        ensures a in Sort(articles)
      {
        SortMembers(articles, a);
      }
      forall a | a in Sort(articles)
        ensures a in articles
      {
        SortMembers(articles, a);
      }
    }
    assert forall a :: a in articles ==> Base(a) in bases;
    SetOfKeys(keys, bases);
  }

  lemma {:induction false} SetOfKeys(keys: seq<string>, all: set<string>)
    requires NoRepeats(keys) && forall k :: k in keys <==> k in all
    ensures |keys| == |all|
    decreases |keys|
  {
    if keys == [] {
      assert all == {};
    } else {
      var before, last := keys[..|keys| - 1], keys[|keys| - 1];
      assert keys == before + [last];
      assert last !in before;
      SetOfKeys(before, all - {last});
      assert last in all;
    }
  }

  function BasesOf(collisions: seq<Collision>): (r: seq<string>)
    ensures |r| == |collisions| && forall i :: 0 <= i < |r| ==> r[i] == collisions[i].base
  {
    seq(|collisions|, i requires 0 <= i < |collisions| => collisions[i].base)
  }

  /** The groups of other than one article, in the order of the bases. */
  function SharedGroups(s: seq<Article>, keys: seq<string>): (r: seq<Collision>)
    decreases |keys|
  {
    if keys == [] then []
    else
      var base := keys[|keys| - 1];
      SharedGroups(s, keys[..|keys| - 1]) +
      if |Sharing(s, base)| == 1 then [] else [Collision(base, IdsOf(Sharing(s, base)))]
  }

  lemma SharedGroupsSnoc(s: seq<Article>, keys: seq<string>, n: nat)
    requires n < |keys|
    ensures SharedGroups(s, keys[..n + 1]) ==
            SharedGroups(s, keys[..n]) +
            if |Sharing(s, keys[n])| == 1 then [] else [Collision(keys[n], IdsOf(Sharing(s, keys[n])))]
  {
    assert keys[..n + 1][..n] == keys[..n];
  }

  function SharedBases(s: seq<Article>, keys: seq<string>): (r: seq<string>)
    decreases |keys|
  {
    if keys == [] then []
    else SharedBases(s, keys[..|keys| - 1]) + if |Sharing(s, keys[|keys| - 1])| == 1 then [] else [keys[|keys| - 1]]
  }

  lemma {:induction false} SharedBasesMeaning(s: seq<Article>, keys: seq<string>)
    requires NoRepeats(keys)
    ensures forall base :: base in SharedBases(s, keys) <==> base in keys && |Sharing(s, base)| != 1
    ensures NoRepeats(SharedBases(s, keys))
    decreases |keys|
  {
    if keys != [] {
      var before, last := keys[..|keys| - 1], keys[|keys| - 1];
      assert keys == before + [last];
      assert last !in before;
      SharedBasesMeaning(s, before);
    }
  }

  lemma {:induction false} SharedGroupsBases(s: seq<Article>, keys: seq<string>)
    ensures BasesOf(SharedGroups(s, keys)) == SharedBases(s, keys)
    decreases |keys|
  {
    if keys != [] {
      SharedGroupsBases(s, keys[..|keys| - 1]);
    }
  }

  lemma {:induction false} SharedGroupsIds(s: seq<Article>, keys: seq<string>, c: Collision)
    requires c in SharedGroups(s, keys)
    ensures c.base in keys && |Sharing(s, c.base)| != 1 && c.articleIds == IdsOf(Sharing(s, c.base))
    decreases |keys|
  {
    if c in SharedGroups(s, keys[..|keys| - 1]) {
      SharedGroupsIds(s, keys[..|keys| - 1], c);
    }
  }

  /** Another article has the same base. */
  ghost predicate Shared(articles: seq<Article>, a: Article) {
    exists b :: b in articles && b != a && Base(b) == Base(a)
  }

  lemma SharedMeaning(articles: seq<Article>, a: Article)
    requires UniqueArticles(articles) && a in articles
    ensures |Sharing(Sort(articles), Base(a))| != 1 <==> Shared(articles, a)
  {
    var group := Sharing(Sort(articles), Base(a));
    SharingMembers(Sort(articles), Base(a));
    SharingIsGroup(articles, Base(a));
    SortMembers(articles, a);
    assert a in group;
    if |group| > 1 {
      var b := if group[0] == a then group[1] else group[0];
      assert b in group;
      SortMembers(articles, b);
    }
    if b :| b in articles && b != a && Base(b) == Base(a) {
      SortMembers(articles, b);
      assert b in group;
    }
  }

  /** The group of the next key, and what it adds. */
  lemma NextKey(s: seq<Article>, groups: map<string, seq<Article>>, keys: seq<string>, n: nat)
    requires SameKeys(groups, keys) && GroupsRight(s, groups) && n < |keys|
    ensures keys[n] in groups && groups[keys[n]] == Sharing(s, keys[n]) && groups[keys[n]] != []
    ensures keys[..n + 1] == keys[..n] + [keys[n]] && keys[n] !in keys[..n]
    ensures (forall k :: k in keys[..n + 1] ==> k in groups) &&
            Held(groups, keys[..n + 1]) == Held(groups, keys[..n]) + |groups[keys[n]]|
  {
    assert keys[n] in keys && GroupRight(s, groups, keys[n]);
    assert keys[..n + 1][..n] == keys[..n];
  }

  /**
   `assignSourceLocators`: every article gets its locator, the groups of more than one are
   reported, each once, and bases plus reported excess account for all articles.
   */
  method AssignSourceLocators(articles: seq<Article>)
    returns (locatorById: map<string, string>, collisions: seq<Collision>)
    requires UniqueArticles(articles)
    ensures forall a :: a in articles ==> a.id in locatorById && locatorById[a.id] == Assigned(articles, a)
    ensures forall c :: c in collisions ==> |c.articleIds| > 1 && c.articleIds == IdsOf(Sharing(Sort(articles), c.base))
    ensures |set a | a in articles :: Base(a)| + Excess(collisions) == |articles|
    ensures NoRepeats(BasesOf(collisions))
    ensures forall a :: a in articles ==> (Base(a) in BasesOf(collisions) <==> Shared(articles, a))
  {
    var sorted := Sort(articles);
    var groups, keys := GroupByBase(sorted);
    BasesCounted(articles, groups, keys);
    locatorById, collisions := map[], [];
    for n := 0 to |keys|
      invariant AssignedFor(articles, keys[..n], locatorById)
      invariant Held(groups, keys[..n]) == n + Excess(collisions)
      invariant collisions == SharedGroups(sorted, keys[..n])
    {
      NextKey(sorted, groups, keys, n);
      SharedGroupsSnoc(sorted, keys, n);
      SharingIsGroup(articles, keys[n]);
      var base := keys[n];
      var group := groups[base];
      var before := locatorById;
      locatorById, collisions := AssignKey(articles, base, group, before, collisions);
      KeyDone(articles, keys[..n], base, before, locatorById);
    }
    assert keys[..|keys|] == keys;
    assert forall a :: a in articles ==> AssignedOne(articles, a, Base(a) in keys, locatorById);
    ReportRight(articles, groups, keys);
  }

  /** Every shared base is reported, each once, with the ids of its articles in order. */
  lemma ReportRight(articles: seq<Article>, groups: map<string, seq<Article>>, keys: seq<string>)
    requires UniqueArticles(articles) && SameKeys(groups, keys) && GroupsRight(Sort(articles), groups)
    requires forall a :: a in articles ==> Base(a) in keys
    ensures var collisions := SharedGroups(Sort(articles), keys);
            NoRepeats(BasesOf(collisions)) &&
            (forall a :: a in articles ==> (Base(a) in BasesOf(collisions) <==> Shared(articles, a))) &&
            forall c :: c in collisions ==> |c.articleIds| > 1 && c.articleIds == IdsOf(Sharing(Sort(articles), c.base))
  {
    var sorted := Sort(articles);
    SharedGroupsBases(sorted, keys);
    SharedBasesMeaning(sorted, keys);
    forall a | a in articles
      ensures Base(a) in SharedBases(sorted, keys) <==> Shared(articles, a)
    {
      SharedMeaning(articles, a);
    }
    forall c | c in SharedGroups(sorted, keys)
      ensures |c.articleIds| > 1 && c.articleIds == IdsOf(Sharing(sorted, c.base))
    {
      SharedGroupsIds(sorted, keys, c);
      assert GroupRight(sorted, groups, c.base);
    }
  }

  /** One base: a single article keeps it, a shared base is reported and its group assigned. */
  method AssignKey(
    articles: seq<Article>, base: string, group: seq<Article>, before: map<string, string>, collisions: seq<Collision>)
    returns (locatorById: map<string, string>, reported: seq<Collision>)
    requires IsGroup(articles, base, group)
    ensures GroupAssigned(articles, group, before, locatorById)
    ensures reported == collisions + if |group| == 1 then [] else [Collision(base, IdsOf(group))]
    ensures Excess(reported) == Excess(collisions) + |group| - 1
  {
    if |group| == 1 {
      SingleAssigned(articles, base, group, before);
      return before[group[0].id := base], collisions;
    }
    ExcessSnoc(collisions, Collision(base, IdsOf(group)));
    reported := collisions + [Collision(base, IdsOf(group))];
    locatorById := AssignGroup(articles, base, group, before);
  }

  lemma ExcessSnoc(collisions: seq<Collision>, c: Collision)
    ensures Excess(collisions + [c]) == Excess(collisions) + |c.articleIds| - 1
  {
    assert (collisions + [c])[..|collisions|] == collisions;
  }

  lemma SingleAssigned(articles: seq<Article>, base: string, group: seq<Article>, before: map<string, string>)
    requires IsGroup(articles, base, group) && |group| == 1
    ensures GroupAssigned(articles, group, before, before[group[0].id := base])
  {
    assert group[..0] == [] && group[..1] == group;
    AssignNext(articles, base, group, 0, before, before);
  }

  /** The members of one group: the first keeps the base, every other one is suffixed with its id. */
  method AssignGroup(articles: seq<Article>, base: string, group: seq<Article>, before: map<string, string>)
    returns (locatorById: map<string, string>)
    requires IsGroup(articles, base, group)
    ensures GroupAssigned(articles, group, before, locatorById)
  {
    locatorById := before;
    for i := 0 to |group|
      invariant GroupAssigned(articles, group[..i], before, locatorById)
    {
      AssignNext(articles, base, group, i, before, locatorById);
      locatorById := locatorById[group[i].id := if i == 0 then base else base + (SUFFIX + group[i].id)];
    }
    assert group[..|group|] == group;
  }

  // ----- Exactly when locators are distinct -----

  ghost predicate DistinctlyAssigned(articles: seq<Article>) {
    forall a, b :: a in articles && b in articles && a != b ==> Assigned(articles, a) != Assigned(articles, b)
  }

  /** No number of an article spells out the suffixed locator of an article that is not first of its base. */
  ghost predicate NoBaseTaken(articles: seq<Article>) {
    forall x, b :: x in articles && b in articles && !IsFirst(articles, b) ==> Base(x) != Suffixed(b)
  }

  /** Some article with the base of `x` is first. */
  lemma FirstOfBase(articles: seq<Article>, x: Article) returns (y: Article)
    requires UniqueArticles(articles) && x in articles
    ensures y in articles && Base(y) == Base(x) && IsFirst(articles, y)
  {
    var group := Sharing(Sort(articles), Base(x));
    SortMembers(articles, x);
    SharingMembers(Sort(articles), Base(x));
    assert x in group;
    GroupFirst(articles, Base(x), 0);
    y := group[0];
  }

  /** With ids free of the marker, the last marker of a suffixed locator splits it. */
  lemma LastMarkerSplits(a: Article, b: Article)
    requires !Includes(a.id, SUFFIX) && !Includes(b.id, SUFFIX)
    ensures Suffixed(a) == Suffixed(b) ==> a.id == b.id
  {
    if Suffixed(a) == Suffixed(b) {
      if |Base(a)| < |Base(b)| {
        MarkerInId(Base(a), a.id, Base(b), b.id);
      } else if |Base(b)| < |Base(a)| {
        MarkerInId(Base(b), b.id, Base(a), a.id);
      } else {
        var n := |Base(a)| + |SUFFIX|;
        assert a.id == Suffixed(a)[n..] && b.id == Suffixed(b)[n..];
      }
    }
  }

  /** A marker that starts later lies inside the id after the earlier one. */
  lemma MarkerInId(a: string, x: string, b: string, y: string)
    requires |a| < |b| && a + (SUFFIX + x) == b + (SUFFIX + y)
    ensures Includes(x, SUFFIX)
  {
    var d := SplitLonger(a, SUFFIX + x, b, SUFFIX + y);
    NoSelfOverlap(d, x, y);
    DropMarker(d, x, SUFFIX + y, SUFFIX);
    IncludesBehind(d[|SUFFIX|..], SUFFIX + y, SUFFIX);
  }

  lemma DropMarker(d: string, x: string, rest: string, marker: string)
    requires marker <= d && marker + x == d + rest
    ensures x == d[|marker|..] + rest
  {
    assert x == (marker + x)[|marker|..];
    assert d + rest == d[..|marker|] + (d[|marker|..] + rest);
  }

  /**
   With unique ids that are free of the marker, all assigned locators are distinct exactly when
   no article's base equals the suffixed locator of an article that is not first of its base.
   */
  lemma DistinctExactly(articles: seq<Article>)
    requires UniqueArticles(articles) && forall a :: a in articles ==> !Includes(a.id, SUFFIX)
    ensures DistinctlyAssigned(articles) <==> NoBaseTaken(articles)
  {
    if NoBaseTaken(articles) {
      forall a, b | a in articles && b in articles && a != b
        ensures Assigned(articles, a) != Assigned(articles, b)
      {
        IdsDiffer(articles, a, b);
        LastMarkerSplits(a, b);
        LessTotal(a.id, b.id);
      }
    }
    if DistinctlyAssigned(articles) {
      forall x, b | x in articles && b in articles && !IsFirst(articles, b)
        ensures Base(x) != Suffixed(b)
      {
        var y := FirstOfBase(articles, x);
        assert y != b;
        assert Assigned(articles, y) == Base(x) && Assigned(articles, b) == Suffixed(b);
      }
    }
  }
}
