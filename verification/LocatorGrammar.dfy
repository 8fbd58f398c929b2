/**
 Source locators: how they are spelled, that the spelling is unambiguous, and the grammar
 that the publication gate checks them against.
 */
module LocatorGrammar {
  import opened Prelude

  // ----- Numerals -----

  predicate IsDigit(c: char) {
    '0' <= c <= '9'
  }

  /** One or more decimal digits. */
  predicate IsDigits(s: string) {
    s != "" && forall i :: 0 <= i < |s| ==> IsDigit(s[i])
  }

  /** `String(n)` for a natural number. */
  function NatToString(n: nat): (s: string)
    ensures IsDigits(s)
    ensures n > 0 ==> s[0] != '0'
  {
    var last := "0123456789"[n % 10];
    if n < 10 then [last] else NatToString(n / 10) + [last]
  }

  function DigitsValue(s: string): (r: nat)
    decreases |s|
  {
    if s == "" then 0
    else DigitsValue(s[..|s| - 1]) * 10
         + if IsDigit(s[|s| - 1]) then (s[|s| - 1] as int) - ('0' as int) else 0
  }

  lemma {:induction false} NatToStringValue(n: nat)
    ensures DigitsValue(NatToString(n)) == n
  {
    var s := NatToString(n);
    if n < 10 {
      assert s[..|s| - 1] == "";
    } else {
      NatToStringValue(n / 10);
      assert s[..|s| - 1] == NatToString(n / 10);
    }
  }

  lemma NatToStringInjective(m: nat, n: nat)
    requires NatToString(m) == NatToString(n)
    ensures m == n
  {
    NatToStringValue(m);
    NatToStringValue(n);
  }

  // ----- Numbered paths -----

  /** What a locator says: the numbers on the way from the document to the node. */
  datatype Path =
    | DocPath
    | ChapterPath(chapter: string)
    | ArticlePath(article: string)
    | ParagraphPath(article: string, paragraph: string)
    | ClausePath(article: string, paragraph: string, clause: string)
    | SubClausePath(article: string, paragraph: string, clause: string, subClause: string)
    | AnnexPath(number: string)

  function Spell(p: Path): (r: string) {
    match p
    case DocPath => "doc"
    case ChapterPath(ch) => "ch-" + ch
    case ArticlePath(a) => "art-" + a
    case ParagraphPath(a, n) => "art-" + a + "/p-" + n
    case ClausePath(a, n, c) => "art-" + a + "/p-" + n + "/c-" + c
    case SubClausePath(a, n, c, s) => "art-" + a + "/p-" + n + "/c-" + c + "/sc-" + s
    case AnnexPath(n) => "annex-" + n
  }

  /** `main` or `main^bis`. */
  predicate IsBisToken(t: string, main: string, bis: Option<string>) {
    IsDigits(main) && (bis.Some? ==> IsDigits(bis.value)) &&
    t == match bis case None => main case Some(b) => main + "^" + b
  }

  ghost predicate IsChapterToken(t: string) {
    exists main, bis :: IsBisToken(t, main, bis)
  }

  /** `a`, `a^b`, `a.b` or `a.b^c`. */
  predicate IsCompoundToken(t: string, head: string, minor: Option<string>, bis: Option<string>) {
    IsDigits(head) && (minor.Some? ==> IsDigits(minor.value)) && (bis.Some? ==> IsDigits(bis.value)) &&
    t == head + (match minor case None => "" case Some(m) => "." + m)
              + (match bis case None => "" case Some(b) => "^" + b)
  }

  ghost predicate IsArticleToken(t: string) {
    exists head, minor, bis :: IsCompoundToken(t, head, minor, bis)
  }

  ghost predicate ValidPath(p: Path) {
    match p
    case DocPath => true
    case ChapterPath(ch) => IsChapterToken(ch)
    case ArticlePath(a) => IsArticleToken(a)
    case ParagraphPath(a, n) => IsArticleToken(a) && IsDigits(n)
    case ClausePath(a, n, c) => IsArticleToken(a) && IsDigits(n) && IsDigits(c)
    case SubClausePath(a, n, c, s) => IsArticleToken(a) && IsDigits(n) && IsDigits(c) && IsDigits(s)
    case AnnexPath(n) => IsDigits(n)
  }

  predicate NoSlash(s: string) {
    forall i :: 0 <= i < |s| ==> s[i] != '/'
  }

  lemma TokenHasNoSlash(t: string)
    requires IsArticleToken(t)
    ensures NoSlash(t)
  {
    var head, minor, bis :| IsCompoundToken(t, head, minor, bis);
    var m := match minor case None => "" case Some(m) => "." + m;
    var b := match bis case None => "" case Some(b) => "^" + b;
    assert NoSlash(head) && NoSlash(m) && NoSlash(b);
  }

  /** What follows the article part of a locator. */
  function Tail(p: Path): (r: string) {
    match p
    case ParagraphPath(_, n) => "/p-" + n
    case ClausePath(_, n, c) => "/p-" + (n + ("/c-" + c))
    case SubClausePath(_, n, c, s) => "/p-" + (n + ("/c-" + (c + ("/sc-" + s))))
    case _ => ""
  }

  predicate InArticle(p: Path) {
    p.ArticlePath? || p.ParagraphPath? || p.ClausePath? || p.SubClausePath?
  }

  lemma Assoc(x: string, y: string, z: string)
    ensures x + y + z == x + (y + z)
  {
  }

  lemma SpellTail(p: Path)
    requires InArticle(p)
    ensures Spell(p) == "art-" + (p.article + Tail(p))
  {
    match p {
      case ArticlePath(a) =>
        assert a + Tail(p) == a;
      case ParagraphPath(a, n) =>
        Assoc("art-" + a, "/p-", n);
        Assoc("art-", a, "/p-" + n);
      case ClausePath(a, n, c) =>
        Append3("art-", a, "/p-", n, "/c-" + c);
        Assoc("art-" + a + "/p-" + n, "/c-", c);
      case SubClausePath(a, n, c, s) =>
        Assoc("art-" + a + "/p-" + n + "/c-" + c, "/sc-", s);
        Assoc("/c-", c, "/sc-" + s);
        Append3("art-", a, "/p-", n, "/c-" + c + ("/sc-" + s));
        Append3("art-", a, "/p-", n, "/c-" + c);
        Assoc("art-" + a + "/p-" + n, "/c-" + c, "/sc-" + s);
    }
  }

  lemma Append3(a: string, b: string, c: string, d: string, z: string)
    ensures a + b + c + d + z == a + (b + (c + (d + z)))
    ensures (a + (b + (c + d))) + z == a + (b + (c + (d + z)))
  {
    Assoc(a + b + c, d, z);
    Assoc(a + b, c, d + z);
    Assoc(a, b, c + (d + z));
    Assoc(a, b + (c + d), z);
    Assoc(b, c + d, z);
    Assoc(c, d, z);
  }

  /** Where the first '/' is, or the length when there is none. */
  function FirstSlash(s: string): (r: nat)
    decreases |s|
  {
    if s == "" || s[0] == '/' then 0 else 1 + FirstSlash(s[1..])
  }

  lemma {:induction false} FirstSlashOf(x: string, y: string)
    requires NoSlash(x) && (y == "" || y[0] == '/')
    ensures FirstSlash(x + y) == |x|
    decreases |x|
  {
    if x == "" {
      assert x + y == y;
    } else {
      assert (x + y)[1..] == x[1..] + y;
      FirstSlashOf(x[1..], y);
    }
  }

  /** A text without '/' ends where the first '/' begins. */
  lemma CutUnique(x: string, y: string, x': string, y': string)
    requires x + y == x' + y' && NoSlash(x) && NoSlash(x')
    requires (y == "" || y[0] == '/') && (y' == "" || y'[0] == '/')
    ensures x == x' && y == y'
  {
    FirstSlashOf(x, y);
    FirstSlashOf(x', y');
    assert x == (x + y)[..|x|] && x' == (x' + y')[..|x|];
    assert y == (x + y)[|x|..] && y' == (x' + y')[|x|..];
  }

  lemma PrefixCancel(lit: string, a: string, b: string)
    requires lit + a == lit + b
    ensures a == b
  {
    assert a == (lit + a)[|lit|..] && b == (lit + b)[|lit|..];
  }

  lemma ClausePartsUnique(c: string, y: string, c': string, y': string)
    requires c + y == c' + y' && IsDigits(c) && IsDigits(c')
    requires (y == "" || y[0] == '/') && (y' == "" || y'[0] == '/')
    ensures c == c' && y == y'
  {
    CutUnique(c, y, c', y');
  }

  /** The part of a tail after the paragraph number, and after the clause number. */
  function AfterParagraph(p: Path): (r: string) {
    match p
    case ClausePath(_, _, c) => "/c-" + c
    case SubClausePath(_, _, c, s) => "/c-" + (c + ("/sc-" + s))
    case _ => ""
  }

  function AfterClause(p: Path): (r: string) {
    match p
    case SubClausePath(_, _, _, s) => "/sc-" + s
    case _ => ""
  }

  lemma TailsUnique(p: Path, q: Path)
    requires InArticle(p) && InArticle(q) && ValidPath(p) && ValidPath(q)
    requires p.article == q.article && Tail(p) == Tail(q)
    ensures p == q
  {
    assert p.ArticlePath? <==> Tail(p) == "";
    assert q.ArticlePath? <==> Tail(q) == "";
    if !p.ArticlePath? && !q.ArticlePath? {
      assert Tail(p) == "/p-" + (p.paragraph + AfterParagraph(p)) by { assert p.paragraph + "" == p.paragraph; }
      assert Tail(q) == "/p-" + (q.paragraph + AfterParagraph(q)) by { assert q.paragraph + "" == q.paragraph; }
      PrefixCancel("/p-", p.paragraph + AfterParagraph(p), q.paragraph + AfterParagraph(q));
      ClausePartsUnique(p.paragraph, AfterParagraph(p), q.paragraph, AfterParagraph(q));
      ClauseTailsUnique(p, q);
    }
  }

  lemma ClauseTailsUnique(p: Path, q: Path)
    requires InArticle(p) && InArticle(q) && ValidPath(p) && ValidPath(q) && !p.ArticlePath? && !q.ArticlePath?
    requires p.article == q.article && p.paragraph == q.paragraph && AfterParagraph(p) == AfterParagraph(q)
    ensures p == q
  {
    assert p.ParagraphPath? <==> AfterParagraph(p) == "";
    assert q.ParagraphPath? <==> AfterParagraph(q) == "";
    if !p.ParagraphPath? && !q.ParagraphPath? {
      assert AfterParagraph(p) == "/c-" + (p.clause + AfterClause(p)) by { assert p.clause + "" == p.clause; }
      assert AfterParagraph(q) == "/c-" + (q.clause + AfterClause(q)) by { assert q.clause + "" == q.clause; }
      PrefixCancel("/c-", p.clause + AfterClause(p), q.clause + AfterClause(q));
      ClausePartsUnique(p.clause, AfterClause(p), q.clause, AfterClause(q));
      if p.SubClausePath? && q.SubClausePath? {
        PrefixCancel("/sc-", p.subClause, q.subClause);
      }
    }
  }

  /** Two valid paths with the same spelling are the same path. */
  lemma SpellInjective(p: Path, q: Path)
    requires ValidPath(p) && ValidPath(q) && Spell(p) == Spell(q)
    ensures p == q
  {
    FirstLetters(p);
    FirstLetters(q);
    if InArticle(p) {
      SpellTail(p);
      SpellTail(q);
      PrefixCancel("art-", p.article + Tail(p), q.article + Tail(q));
      TokenHasNoSlash(p.article);
      TokenHasNoSlash(q.article);
      CutUnique(p.article, Tail(p), q.article, Tail(q));
      TailsUnique(p, q);
    } else if p.ChapterPath? {
      PrefixCancel("ch-", p.chapter, q.chapter);
    } else if p.AnnexPath? {
      PrefixCancel("annex-", p.number, q.number);
    }
  }

  lemma FirstLetters(p: Path)
    ensures |Spell(p)| >= 3
    ensures p.DocPath? <==> Spell(p)[0] == 'd'
    ensures p.ChapterPath? <==> Spell(p)[0] == 'c'
    ensures p.AnnexPath? <==> Spell(p)[0] == 'a' && Spell(p)[1] == 'n'
  {
    if InArticle(p) {
      SpellTail(p);
      assert Spell(p)[0] == 'a' && Spell(p)[1] == 'r';
    }
  }

  // ----- The gate's locator pattern -----

  /** What is left after a greedy run of digits. */
  function SkipDigits(s: string): (r: string)
    decreases |s|
  {
    if s != "" && IsDigit(s[0]) then SkipDigits(s[1..]) else s
  }

  /** `\d+`, if it matches here. */
  function AfterDigits(s: string): (r: Option<string>) {
    if s != "" && IsDigit(s[0]) then Some(SkipDigits(s)) else None
  }

  function AfterLiteral(s: string, lit: string): (r: Option<string>) {
    if lit <= s then Some(s[|lit|..]) else None
  }

  /** `lit\d+`. */
  function AfterNumber(s: string, lit: string): (r: Option<string>) {
    match AfterLiteral(s, lit)
    case None => None
    case Some(rest) => AfterDigits(rest)
  }

  /** `(?:lit\d+)?`. */
  function AfterOptional(s: string, lit: string): (r: string) {
    match AfterNumber(s, lit) case None => s case Some(rest) => rest
  }

  /** `(?:/p-\d+(?:/c-\d+(?:/sc-\d+)?)?)?` to the end. */
  predicate MatchesTail(s: string) {
    s == "" ||
    match AfterNumber(s, "/p-")
    case None => false
    case Some(s1) =>
      s1 == "" ||
      match AfterNumber(s1, "/c-")
      case None => false
      case Some(s2) => AfterOptional(s2, "/sc-") == ""
  }

  predicate MatchesLocatorPattern(s: string) {
    s == "doc" ||
    (var ch := AfterNumber(s, "ch-"); ch.Some? && AfterOptional(ch.value, "^") == "") ||
    (var art := AfterNumber(s, "art-");
     art.Some? && MatchesTail(AfterOptional(AfterOptional(art.value, "."), "^"))) ||
    AfterNumber(s, "annex-") == Some("")
  }

  lemma {:induction false} SkipDigitsOf(d: string, rest: string)
    requires forall i :: 0 <= i < |d| ==> IsDigit(d[i])
    requires rest == "" || !IsDigit(rest[0])
    ensures SkipDigits(d + rest) == rest
    decreases |d|
  {
    if d == "" {
      assert d + rest == rest;
    } else {
      assert (d + rest)[1..] == d[1..] + rest;
      SkipDigitsOf(d[1..], rest);
    }
  }

  lemma AfterNumberOf(lit: string, d: string, rest: string)
    requires IsDigits(d) && (rest == "" || !IsDigit(rest[0]))
    ensures AfterNumber(lit + (d + rest), lit) == Some(rest)
  {
    var s := lit + (d + rest);
    assert lit <= s && s[|lit|..] == d + rest;
    SkipDigitsOf(d, rest);
  }

  lemma OptionalOf(lit: string, d: Option<string>, rest: string)
    requires lit != "" && (d.Some? ==> IsDigits(d.value)) && (rest == "" || (!IsDigit(rest[0]) && rest[0] != lit[0]))
    ensures AfterOptional((match d case None => rest case Some(n) => lit + (n + rest)), lit) == rest
  {
    match d {
      case Some(n) => AfterNumberOf(lit, n, rest);
      case None => assert rest != "" ==> !(lit <= rest);
    }
  }

  lemma MatchesTailOf(p: Path)
    requires InArticle(p) && ValidPath(p)
    ensures MatchesTail(Tail(p))
    ensures Tail(p) == "" || Tail(p)[0] == '/'
  {
    if !p.ArticlePath? {
      assert Tail(p) == "/p-" + (p.paragraph + AfterParagraph(p)) by { assert p.paragraph + "" == p.paragraph; }
      AfterNumberOf("/p-", p.paragraph, AfterParagraph(p));
      if !p.ParagraphPath? {
        assert AfterParagraph(p) == "/c-" + (p.clause + AfterClause(p)) by { assert p.clause + "" == p.clause; }
        AfterNumberOf("/c-", p.clause, AfterClause(p));
        if p.SubClausePath? {
          assert AfterClause(p) == "/sc-" + (p.subClause + "");
          AfterNumberOf("/sc-", p.subClause, "");
        }
      }
    }
  }

  /** Every valid path is spelled within the grammar that the gate accepts. */
  lemma SpelledInGrammar(p: Path)
    requires ValidPath(p)
    ensures MatchesLocatorPattern(Spell(p))
  {
    match p {
      case DocPath =>
      case ChapterPath(ch) =>
        var main, bis :| IsBisToken(ch, main, bis);
        var rest := match bis case None => "" case Some(b) => "^" + (b + "");
        assert Spell(p) == "ch-" + (main + rest) by {
          assert bis.Some? ==> bis.value + "" == bis.value;
          assert main + "" == main;
        }
        AfterNumberOf("ch-", main, rest);
        OptionalOf("^", bis, "");
      case AnnexPath(n) =>
        assert Spell(p) == "annex-" + (n + "");
        AfterNumberOf("annex-", n, "");
      case _ =>
        var head, minor, bis :| IsCompoundToken(p.article, head, minor, bis);
        MatchesTailOf(p);
        var tail := Tail(p);
        var r2 := match bis case None => tail case Some(b) => "^" + (b + tail);
        var r1 := match minor case None => r2 case Some(m) => "." + (m + r2);
        SpellTail(p);
        assert Spell(p) == "art-" + (head + r1) by {
          CompoundText(p.article, head, minor, bis, tail);
        }
        AfterNumberOf("art-", head, r1);
        OptionalOf(".", minor, r2);
        OptionalOf("^", bis, tail);
    }
  }

  lemma CompoundText(t: string, head: string, minor: Option<string>, bis: Option<string>, tail: string)
    requires IsCompoundToken(t, head, minor, bis)
    ensures t + tail ==
            head + (var r2 := (match bis case None => tail case Some(b) => "^" + (b + tail));
                    match minor case None => r2 case Some(m) => "." + (m + r2))
  {
    var m := match minor case None => "" case Some(m) => "." + m;
    var b := match bis case None => "" case Some(b) => "^" + b;
    assert t == head + m + b;
    assert t + tail == head + (m + (b + tail));
    assert minor.Some? ==> m + (b + tail) == "." + (minor.value + (b + tail));
    assert bis.Some? ==> b + tail == "^" + (bis.value + tail);
    assert "" + tail == tail && "" + (b + tail) == b + tail;
  }

  // ----- The characters of the pattern -----

  predicate LocatorChar(c: char) {
    IsDigit(c) || c in "docharntexps-/.^"
  }

  predicate Plain(s: string) {
    forall i :: 0 <= i < |s| ==> LocatorChar(s[i])
  }

  lemma {:induction false} PlainBeforeDigits(s: string)
    requires Plain(SkipDigits(s))
    ensures Plain(s)
    decreases |s|
  {
    if s != "" && IsDigit(s[0]) {
      PlainBeforeDigits(s[1..]);
      assert s == [s[0]] + s[1..];
    }
  }

  lemma PlainBeforeNumber(s: string, lit: string)
    requires Plain(lit) && AfterNumber(s, lit).Some? && Plain(AfterNumber(s, lit).value)
    ensures Plain(s)
  {
    PlainBeforeDigits(s[|lit|..]);
    assert s == lit + s[|lit|..];
  }

  lemma PlainBeforeOptional(s: string, lit: string)
    requires Plain(lit) && Plain(AfterOptional(s, lit))
    ensures Plain(s)
  {
    if AfterNumber(s, lit).Some? {
      PlainBeforeNumber(s, lit);
    }
  }

  lemma PlainTail(s: string)
    requires MatchesTail(s)
    ensures Plain(s)
  {
    if s != "" {
      var s1 := AfterNumber(s, "/p-").value;
      if s1 != "" {
        var s2 := AfterNumber(s1, "/c-").value;
        PlainBeforeOptional(s2, "/sc-");
        PlainBeforeNumber(s1, "/c-");
      }
      PlainBeforeNumber(s, "/p-");
    }
  }

  /** The pattern admits digits, a few letters and the signs - / . ^ only; in particular no colon. */
  lemma LocatorsArePlain(s: string)
    requires MatchesLocatorPattern(s)
    ensures Plain(s)
  {
    var ch, art := AfterNumber(s, "ch-"), AfterNumber(s, "art-");
    if ch.Some? && AfterOptional(ch.value, "^") == "" {
      PlainBeforeOptional(ch.value, "^");
      PlainBeforeNumber(s, "ch-");
    } else if art.Some? && MatchesTail(AfterOptional(AfterOptional(art.value, "."), "^")) {
      PlainTail(AfterOptional(AfterOptional(art.value, "."), "^"));
      PlainBeforeOptional(AfterOptional(art.value, "."), "^");
      PlainBeforeOptional(art.value, ".");
      PlainBeforeNumber(s, "art-");
    } else if AfterNumber(s, "annex-") == Some("") {
      PlainBeforeNumber(s, "annex-");
    }
  }
}
