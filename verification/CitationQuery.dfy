/**
 What the phrase parser of citations reads from a query. Its patterns for the words "article"
 and "law" need Cyrillic letters; on a query without any, such as a locator, only the dotted
 number is left.
 */
module CitationQuery {
  import opened Prelude
  import opened LocatorGrammar

  /** What `parseExactCitationQuery` reads from a phrase. */
  datatype ParsedQuery = ParsedQuery(
    titleHint: Option<string>, article: Option<string>, paragraph: Option<string>, locator: Option<string>)

  const NO_HINTS := ParsedQuery(None, None, None, None)

  /** `\w`. */
  predicate IsWordChar(c: char) {
    IsDigit(c) || 'a' <= c <= 'z' || 'A' <= c <= 'Z' || c == '_'
  }

  function LeadingDigits(s: string): (d: string)
    decreases |s|
  {
    if s != "" && IsDigit(s[0]) then [s[0]] + LeadingDigits(s[1..]) else ""
  }

  /** `(\d+)\.(\d+)\b` at the start of a text. */
  function DottedHere(s: string): (r: Option<(string, string)>) {
    var after := SkipDigits(s);
    if LeadingDigits(s) == "" || !("." <= after) then None
    else
      var end := SkipDigits(after[1..]);
      if LeadingDigits(after[1..]) == "" || (end != "" && IsWordChar(end[0])) then None
      else Some((LeadingDigits(s), LeadingDigits(after[1..])))
  }

  /** The first match of `\b(\d+)\.(\d+)\b` at or after a position. */
  function FirstDotted(s: string, i: nat): (r: Option<(string, string)>)
    requires i <= |s|
    decreases |s| - i
  {
    if i == |s| then None
    else if (i == 0 || !IsWordChar(s[i - 1])) && DottedHere(s[i..]).Some? then DottedHere(s[i..])
    else FirstDotted(s, i + 1)
  }

  /** The hints read from a text without Cyrillic letters and spaces. */
  function LatinHints(s: string): (r: ParsedQuery) {
    match FirstDotted(s, 0)
    case None => NO_HINTS
    case Some((a, p)) => ParsedQuery(None, Some(a), Some(p), Some(Spell(ParagraphPath(a, p))))
  }

  lemma {:induction false} DigitRun(d: string, rest: string)
    requires forall i :: 0 <= i < |d| ==> IsDigit(d[i])
    requires rest == "" || !IsDigit(rest[0])
    ensures LeadingDigits(d + rest) == d
    decreases |d|
  {
    if d == "" {
      assert d + rest == rest;
    } else {
      assert (d + rest)[1..] == d[1..] + rest;
      DigitRun(d[1..], rest);
    }
  }

  lemma {:induction false} SkippedIsSuffix(s: string)
    ensures |SkipDigits(s)| <= |s| && SkipDigits(s) == s[|s| - |SkipDigits(s)|..]
    decreases |s|
  {
    if s != "" && IsDigit(s[0]) {
      SkippedIsSuffix(s[1..]);
    }
  }

  lemma {:induction false} NoDotNoMatch(s: string, i: nat)
    requires i <= |s| && '.' !in s
    ensures FirstDotted(s, i).None?
    decreases |s| - i
  {
    if i < |s| {
      SkippedIsSuffix(s[i..]);
      assert SkipDigits(s[i..]) != "" ==> SkipDigits(s[i..])[0] in s;
      NoDotNoMatch(s, i + 1);
    }
  }

  lemma {:induction false} LeadingAreDigits(s: string)
    ensures forall c :: c in LeadingDigits(s) ==> IsDigit(c)
    decreases |s|
  {
    if s != "" && IsDigit(s[0]) {
      LeadingAreDigits(s[1..]);
    }
  }

  /** A match consists of two digit runs around a dot of the text. */
  lemma {:induction false} MatchDigits(s: string, i: nat)
    requires i <= |s|
    ensures FirstDotted(s, i).Some? ==>
              IsDigits(FirstDotted(s, i).value.0) && IsDigits(FirstDotted(s, i).value.1) && '.' in s
    decreases |s| - i
  {
    if i < |s| {
      MatchDigits(s, i + 1);
      LeadingAreDigits(s[i..]);
      SkippedIsSuffix(s[i..]);
      var after := SkipDigits(s[i..]);
      if "." <= after {
        LeadingAreDigits(after[1..]);
        assert after[0] == '.' && after[0] in s;
      }
    }
  }

  /** The hinted locator is never the text itself. */
  lemma HintIsAnother(s: string)
    ensures LatinHints(s).locator != Some(s)
  {
    MatchDigits(s, 0);
    if FirstDotted(s, 0).Some? {
      var (a, p) := FirstDotted(s, 0).value;
      assert '.' !in "art-" && '.' !in a && '.' !in "/p-" && '.' !in p;
    }
  }

  /** A dotted number behind "art-" is the first match. */
  lemma FirstMatch(s: string, head: string, minor: string, end: string)
    requires IsDigits(head) && IsDigits(minor) && (end == "" || end[0] in {'^', '/'})
    requires s == "art-" + (head + ("." + (minor + end)))
    ensures FirstDotted(s, 0) == Some((head, minor))
  {
    var rest := "." + (minor + end);
    assert s[4..] == head + rest;
    assert rest[1..] == minor + end;
    DigitRun(head, rest);
    SkipDigitsOf(head, rest);
    DigitRun(minor, end);
    SkipDigitsOf(minor, end);
    assert DottedHere(s[4..]) == Some((head, minor));
    assert FirstDotted(s, 4) == Some((head, minor));
    assert s[..4] == "art-";
    forall i | 0 <= i < 4
      ensures DottedHere(s[i..]).None?
    {
      assert s[i..][0] == s[..4][i];
    }
    assert FirstDotted(s, 1) == FirstDotted(s, 2) == FirstDotted(s, 3) == FirstDotted(s, 4);
  }

  /** The locator of a provision of the dotted article a.b is read as article a, paragraph b. */
  lemma DottedLocatorHints(p: Path, head: string, minor: string, bis: Option<string>)
    requires InArticle(p) && ValidPath(p) && IsCompoundToken(p.article, head, Some(minor), bis)
    ensures LatinHints(Spell(p)) == ParsedQuery(None, Some(head), Some(minor), Some(Spell(ParagraphPath(head, minor))))
  {
    MatchesTailOf(p);
    SpellTail(p);
    CompoundText(p.article, head, Some(minor), bis, Tail(p));
    var end := match bis case None => Tail(p) case Some(b) => "^" + (b + Tail(p));
    FirstMatch(Spell(p), head, minor, end);
  }

  /** A locator without a dot gives no hint. */
  lemma UndottedLocatorHints(s: string)
    requires '.' !in s
    ensures LatinHints(s) == NO_HINTS
  {
    NoDotNoMatch(s, 0);
  }
}
