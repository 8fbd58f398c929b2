/**
 Reading a locator (article, paragraph, subparagraph, item) from the tokens of a citation.
 Tokens are already classified: words to ignore, level words, dotted numbers, anything else.
 */
module CitationLocator {
  import opened Prelude

  const LEVELS := 4
  const ARTICLE_LEVEL := 0
  const ITEM_LEVEL := 3

  /** The parts of a number are its digit groups. */
  datatype Token = Ignorable | Role(level: nat) | Number(parts: seq<string>) | Other

  datatype Locator = Locator(
    article: Option<string>, paragraph: Option<string>, subparagraph: Option<string>, item: Option<string>)

  const EMPTY := Locator(None, None, None, None)

  predicate ValidParts(parts: seq<string>) {
    parts != [] && NoneEmpty(parts)
  }

  predicate NoneEmpty(parts: seq<string>) {
    forall i :: 0 <= i < |parts| ==> parts[i] != ""
  }

  function Get(loc: Locator, level: nat): (r: Option<string>) {
    if level == 0 then loc.article else if level == 1 then loc.paragraph
    else if level == 2 then loc.subparagraph else loc.item
  }

  function Set(loc: Locator, level: nat, part: string): (r: Locator) {
    if level == 0 then loc.(article := Some(part)) else if level == 1 then loc.(paragraph := Some(part))
    else if level == 2 then loc.(subparagraph := Some(part)) else loc.(item := Some(part))
  }

  // ----- Assigning parts -----

  /** One part at a level: an empty field is filled, a filled one is kept; past the item, parts are appended to it. */
  function AssignPart(loc: Locator, level: nat, part: string): (r: Locator) {
    if level >= LEVELS then loc.(item := Some(if Truthy(loc.item) then loc.item.value + "." + part else part))
    else if Get(loc, level).None? then Set(loc, level, part)
    else loc
  }

  function AssignFrom(loc: Locator, level: nat, parts: seq<string>): (r: Locator)
    decreases |parts|
  {
    if parts == [] then loc
    else AssignFrom(AssignPart(loc, level, parts[0]), if level >= LEVELS then level else level + 1, parts[1..])
  }

  method AssignFromLevel(loc: Locator, start: nat, parts: seq<string>) returns (r: Locator)
    ensures r == AssignFrom(loc, start, parts)
  {
    r := loc;
    var offset: nat := start;
    for k := 0 to |parts|
      invariant AssignFrom(r, offset, parts[k..]) == AssignFrom(loc, start, parts)
    {
      assert parts[k..][1..] == parts[k + 1..];
      r := AssignPart(r, offset, parts[k]);
      if offset < LEVELS {
        offset := offset + 1;
      }
    }
  }

  /** The first empty level, or the item. */
  function NextEmpty(loc: Locator): (r: nat) {
    if loc.article.None? then 0 else if loc.paragraph.None? then 1
    else if loc.subparagraph.None? then 2 else ITEM_LEVEL
  }

  /** Where a number without a label goes. */
  function AssignBare(loc: Locator, parts: seq<string>): (r: Locator) {
    if !Truthy(loc.article) then AssignFrom(loc, ARTICLE_LEVEL, parts) else AssignFrom(loc, NextEmpty(loc), parts)
  }

  // ----- The token loop -----

  /** The index of the first token from `i` on that is not ignored. */
  function Skip(tokens: seq<Token>, i: nat): (j: nat)
    requires i <= |tokens|
    ensures i <= j <= |tokens| && (j < |tokens| ==> !tokens[j].Ignorable?)
    decreases |tokens| - i
  {
    if i < |tokens| && tokens[i].Ignorable? then Skip(tokens, i + 1) else i
  }

  method NextNumber(tokens: seq<Token>, start: nat) returns (found: bool, index: nat)
    requires start <= |tokens|
    ensures var j := Skip(tokens, start); found == (j < |tokens| && tokens[j].Number?) && (found ==> index == j)
  {
    index := start;
    while index < |tokens|
      invariant start <= index <= |tokens| && Skip(tokens, start) == Skip(tokens, index)
    {
      if !tokens[index].Ignorable? {
        return tokens[index].Number?, index;
      }
      index := index + 1;
    }
    return false, index;
  }

  method NextRole(tokens: seq<Token>, start: nat) returns (found: bool, index: nat)
    requires start <= |tokens|
    ensures var j := Skip(tokens, start); found == (j < |tokens| && tokens[j].Role?) && (found ==> index == j)
  {
    index := start;
    while index < |tokens|
      invariant start <= index <= |tokens| && Skip(tokens, start) == Skip(tokens, index)
    {
      if !tokens[index].Ignorable? {
        return tokens[index].Role?, index;
      }
      index := index + 1;
    }
    return false, index;
  }

  /** What the loop makes of the tokens from `i` on. */
  function ParseAt(tokens: seq<Token>, i: nat, loc: Locator): (r: Locator)
    requires i <= |tokens|
    decreases |tokens| - i
  {
    if i == |tokens| then loc
    else
      match tokens[i]
      case Ignorable => ParseAt(tokens, i + 1, loc)
      case Other => ParseAt(tokens, i + 1, loc)
      case Role(level) =>
        var j := Skip(tokens, i + 1);
        if j < |tokens| && tokens[j].Number? then ParseAt(tokens, j + 1, AssignFrom(loc, level, tokens[j].parts))
        else ParseAt(tokens, i + 1, loc)
      case Number(parts) =>
        var j := Skip(tokens, i + 1);
        if j < |tokens| && tokens[j].Role? then ParseAt(tokens, j + 1, AssignFrom(loc, tokens[j].level, parts))
        else ParseAt(tokens, i + 1, AssignBare(loc, parts))
  }

  method ParseLocator(tokens: seq<Token>) returns (loc: Locator)
    ensures loc == ParseAt(tokens, 0, EMPTY)
  {
    loc := EMPTY;
    var i := 0;
    while i < |tokens|
      invariant i <= |tokens| && ParseAt(tokens, i, loc) == ParseAt(tokens, 0, EMPTY)
    {
      var token := tokens[i];
      if token.Role? {
        var found, index := NextNumber(tokens, i + 1);
        if found {
          loc := AssignFromLevel(loc, token.level, tokens[index].parts);
          i := index + 1;
          continue;
        }
      } else if token.Number? {
        var found, index := NextRole(tokens, i + 1);
        if found {
          loc := AssignFromLevel(loc, tokens[index].level, token.parts);
          i := index + 1;
          continue;
        }
        if !Truthy(loc.article) {
          loc := AssignFromLevel(loc, ARTICLE_LEVEL, token.parts);
        } else {
          loc := AssignFromLevel(loc, NextEmpty(loc), token.parts);
        }
      }
      i := i + 1;
    }
  }

  // ----- Ignored tokens do not matter -----

  function Strip(tokens: seq<Token>): (r: seq<Token>) {
    if tokens == [] then []
    else if tokens[0].Ignorable? then Strip(tokens[1..])
    else [tokens[0]] + Strip(tokens[1..])
  }

  /** Reading a list without ignored tokens, one or two tokens at a time. */
  function Read(s: seq<Token>, loc: Locator): (r: Locator)
    decreases |s|
  {
    if s == [] then loc
    else if |s| >= 2 && s[0].Role? && s[1].Number? then Read(s[2..], AssignFrom(loc, s[0].level, s[1].parts))
    else if |s| >= 2 && s[0].Number? && s[1].Role? then Read(s[2..], AssignFrom(loc, s[1].level, s[0].parts))
    else Read(s[1..], if s[0].Number? then AssignBare(loc, s[0].parts) else loc)
  }

  lemma {:induction false} StripSkip(tokens: seq<Token>, i: nat)
    requires i <= |tokens|
    ensures var j := Skip(tokens, i);
            Strip(tokens[i..]) == if j == |tokens| then [] else [tokens[j]] + Strip(tokens[j + 1..])
    decreases |tokens| - i
  {
    if i < |tokens| {
      assert tokens[i..][1..] == tokens[i + 1..];
      if tokens[i].Ignorable? {
        StripSkip(tokens, i + 1);
      }
    }
  }

  /** Where the loop continues after the token at `i`, and with what. */
  function ParseStep(tokens: seq<Token>, i: nat, loc: Locator): (r: (nat, Locator))
    requires i < |tokens|
    ensures i < r.0 <= |tokens| && ParseAt(tokens, i, loc) == ParseAt(tokens, r.0, r.1)
  {
    var j := Skip(tokens, i + 1);
    match tokens[i]
    case Ignorable => (i + 1, loc)
    case Other => (i + 1, loc)
    case Role(level) =>
      if j < |tokens| && tokens[j].Number? then (j + 1, AssignFrom(loc, level, tokens[j].parts)) else (i + 1, loc)
    case Number(parts) =>
      if j < |tokens| && tokens[j].Role? then (j + 1, AssignFrom(loc, tokens[j].level, parts))
      else (i + 1, AssignBare(loc, parts))
  }

  /** What the reader does at a token that another one follows. */
  lemma ReadTwo(t: Token, u: Token, rest: seq<Token>, loc: Locator)
    requires !t.Ignorable?
    ensures Read([t] + ([u] + rest), loc) ==
            if t.Role? && u.Number? then Read(rest, AssignFrom(loc, t.level, u.parts))
            else if t.Number? && u.Role? then Read(rest, AssignFrom(loc, u.level, t.parts))
            else Read([u] + rest, if t.Number? then AssignBare(loc, t.parts) else loc)
  {
    var s := [t] + ([u] + rest);
    assert s[1..] == [u] + rest && s[2..] == rest;
  }

  lemma ReadLast(t: Token, loc: Locator)
    requires !t.Ignorable?
    ensures Read([t] + [], loc) == Read([], if t.Number? then AssignBare(loc, t.parts) else loc)
  {
    assert ([t] + [])[1..] == [];
  }

  /** Reading without ignored tokens takes the same step. */
  lemma ReadStep(tokens: seq<Token>, i: nat, loc: Locator)
    requires i < |tokens|
    ensures var next := ParseStep(tokens, i, loc);
            Read(Strip(tokens[i..]), loc) == Read(Strip(tokens[next.0..]), next.1)
  {
    assert tokens[i..][1..] == tokens[i + 1..];
    StripSkip(tokens, i + 1);
    var j := Skip(tokens, i + 1);
    if tokens[i].Ignorable? {
    } else if j < |tokens| {
      StepBeforeAnother(tokens, i, j, loc);
    } else {
      ReadLast(tokens[i], loc);
    }
  }

  lemma StepBeforeAnother(tokens: seq<Token>, i: nat, j: nat, loc: Locator)
    requires i < j < |tokens| && j == Skip(tokens, i + 1) && !tokens[i].Ignorable?
    requires Strip(tokens[i + 1..]) == [tokens[j]] + Strip(tokens[j + 1..])
    requires Strip(tokens[i..]) == [tokens[i]] + Strip(tokens[i + 1..])
    ensures var next := ParseStep(tokens, i, loc);
            Read(Strip(tokens[i..]), loc) == Read(Strip(tokens[next.0..]), next.1)
  {
    ReadTwo(tokens[i], tokens[j], Strip(tokens[j + 1..]), loc);
  }

  lemma {:induction false} ParseReads(tokens: seq<Token>, i: nat, loc: Locator)
    requires i <= |tokens|
    ensures ParseAt(tokens, i, loc) == Read(Strip(tokens[i..]), loc)
    decreases |tokens| - i
  {
    if i < |tokens| {
      var next := ParseStep(tokens, i, loc);
      ReadStep(tokens, i, loc);
      ParseReads(tokens, next.0, next.1);
    }
  }

  lemma {:induction false} StripTwice(tokens: seq<Token>)
    ensures Strip(Strip(tokens)) == Strip(tokens)
  {
    if tokens != [] {
      StripTwice(tokens[1..]);
      if !tokens[0].Ignorable? {
        assert ([tokens[0]] + Strip(tokens[1..]))[1..] == Strip(tokens[1..]);
      }
    }
  }

  /** Deleting every ignorable token changes nothing. */
  lemma IgnorablesDoNotMatter(tokens: seq<Token>)
    ensures ParseAt(tokens, 0, EMPTY) == ParseAt(Strip(tokens), 0, EMPTY)
  {
    ParseReads(tokens, 0, EMPTY);
    ParseReads(Strip(tokens), 0, EMPTY);
    assert tokens[0..] == tokens && Strip(tokens)[0..] == Strip(tokens);
    StripTwice(tokens);
  }

  // ----- Notations of a number path -----

  function JoinDots(parts: seq<string>): (r: string)
    decreases |parts|
  {
    if parts == [] then "" else if |parts| == 1 then parts[0]
    else JoinDots(parts[..|parts| - 1]) + "." + parts[|parts| - 1]
  }

  /** The locator of a path: its first three numbers, and the others joined into the item. */
  function Fill(path: seq<string>): (r: Locator) {
    Locator(if |path| > 0 then Some(path[0]) else None, if |path| > 1 then Some(path[1]) else None,
            if |path| > 2 then Some(path[2]) else None, if |path| > 3 then Some(JoinDots(path[3..])) else None)
  }

  function DepthLevel(path: seq<string>): (r: nat) {
    if |path| >= LEVELS then LEVELS else |path|
  }

  lemma JoinNotEmpty(parts: seq<string>)
    requires ValidParts(parts)
    ensures JoinDots(parts) != ""
  {
  }

  lemma FillPart(path: seq<string>, part: string)
    requires part != "" && NoneEmpty(path)
    ensures AssignPart(Fill(path), DepthLevel(path), part) == Fill(path + [part])
    ensures NoneEmpty(path + [part])
  {
    var longer := path + [part];
    if |path| >= LEVELS {
      var tail := longer[3..];
      assert tail[..|tail| - 1] == path[3..];
      JoinNotEmpty(path[3..]);
    }
  }

  lemma AssignStep(path: seq<string>, parts: seq<string>)
    requires parts != []
    ensures AssignFrom(Fill(path), DepthLevel(path), parts) ==
            AssignFrom(AssignPart(Fill(path), DepthLevel(path), parts[0]), DepthLevel(path + [parts[0]]), parts[1..])
  {
  }

  /** Parts assigned at the first free level extend the path. */
  lemma {:induction false} FillParts(path: seq<string>, parts: seq<string>)
    requires NoneEmpty(path)
    requires NoneEmpty(parts)
    ensures AssignFrom(Fill(path), DepthLevel(path), parts) == Fill(path + parts)
    decreases |parts|
  {
    if parts == [] {
      assert path + parts == path;
    } else {
      var longer := path + [parts[0]];
      AssignStep(path, parts);
      FillPart(path, parts[0]);
      FillParts(longer, parts[1..]);
      assert longer + parts[1..] == path + parts;
    }
  }

  datatype Style = Bare | LabelBefore | LabelAfter

  /** Some numbers written together, without a label or with the word of their first level. */
  datatype Chunk = Chunk(parts: seq<string>, style: Style)

  function SpellChunk(c: Chunk, level: nat): (r: seq<Token>) {
    match c.style
    case Bare => [Number(c.parts)]
    case LabelBefore => [Role(level), Number(c.parts)]
    case LabelAfter => [Number(c.parts), Role(level)]
  }

  /** The chunks one after the other, the first starting at `level`. */
  function Spell(chunks: seq<Chunk>, level: nat): (r: seq<Token>) {
    if chunks == [] then [] else SpellChunk(chunks[0], level) + Spell(chunks[1..], level + |chunks[0].parts|)
  }

  function Path(chunks: seq<Chunk>): (r: seq<string>) {
    if chunks == [] then [] else chunks[0].parts + Path(chunks[1..])
  }

  /**
   The chunks name levels that exist, and no number without a label stands before a label:
   that label would be read as its own.
   */
  predicate Unambiguous(chunks: seq<Chunk>, level: nat) {
    chunks != [] ==>
      level < LEVELS && ValidParts(chunks[0].parts) && FirstKeepsNumber(chunks) &&
      Unambiguous(chunks[1..], level + |chunks[0].parts|)
  }

  /** The first chunk is not a bare number in front of a label. */
  predicate FirstKeepsNumber(chunks: seq<Chunk>) {
    |chunks| > 1 && chunks[0].style == Bare ==> chunks[1].style != LabelBefore
  }

  /** The chunks name levels that exist. */
  predicate Levelled(chunks: seq<Chunk>, level: nat) {
    chunks != [] ==> level < LEVELS && ValidParts(chunks[0].parts) && Levelled(chunks[1..], level + |chunks[0].parts|)
  }

  lemma BareExtends(path: seq<string>, parts: seq<string>)
    requires |path| < LEVELS && ValidParts(parts) && NoneEmpty(path)
    ensures AssignBare(Fill(path), parts) == Fill(path + parts)
  {
    FillParts(path, parts);
  }

  lemma ReadBare(parts: seq<string>, rest: seq<Token>, loc: Locator)
    requires rest == [] || !rest[0].Role?
    ensures Read([Number(parts)] + rest, loc) == Read(rest, AssignBare(loc, parts))
  {
    assert ([Number(parts)] + rest)[1..] == rest;
  }

  lemma ReadLabelled(level: nat, parts: seq<string>, rest: seq<Token>, loc: Locator)
    ensures Read([Role(level), Number(parts)] + rest, loc) == Read(rest, AssignFrom(loc, level, parts))
    ensures Read([Number(parts), Role(level)] + rest, loc) == Read(rest, AssignFrom(loc, level, parts))
  {
    assert ([Role(level), Number(parts)] + rest)[2..] == rest;
    assert ([Number(parts), Role(level)] + rest)[2..] == rest;
  }

  /** The token after a bare number is no label. */
  lemma NoLabelAfterBare(chunks: seq<Chunk>, level: nat)
    requires chunks != [] && FirstKeepsNumber(chunks) && chunks[0].style == Bare
    ensures var rest := Spell(chunks[1..], level + |chunks[0].parts|); rest == [] || !rest[0].Role?
  {
    if |chunks| > 1 {
      assert chunks[1..][0] == chunks[1];
    }
  }

  lemma ReadChunk(chunks: seq<Chunk>, path: seq<string>, loc: Locator)
    requires chunks != [] && FirstKeepsNumber(chunks) && |path| < LEVELS && loc == Fill(path) && NoneEmpty(path)
    requires AssignFrom(loc, |path|, chunks[0].parts) == AssignBare(loc, chunks[0].parts)
    ensures Read(Spell(chunks, |path|), loc) ==
            Read(Spell(chunks[1..], |path| + |chunks[0].parts|), AssignBare(loc, chunks[0].parts))
  {
    var c := chunks[0];
    var rest := Spell(chunks[1..], |path| + |c.parts|);
    assert Spell(chunks, |path|) == SpellChunk(c, |path|) + rest;
    if c.style == Bare {
      NoLabelAfterBare(chunks, |path|);
      ReadBare(c.parts, rest, loc);
    } else {
      ReadLabelled(|path|, c.parts, rest, loc);
    }
  }

  lemma ConcatNoneEmpty(a: seq<string>, b: seq<string>)
    requires NoneEmpty(a) && NoneEmpty(b)
    ensures NoneEmpty(a + b)
  {
  }

  lemma ChunkExtends(chunks: seq<Chunk>, path: seq<string>)
    requires chunks != [] && Levelled(chunks, |path|) && FirstKeepsNumber(chunks) && NoneEmpty(path)
    ensures var longer := path + chunks[0].parts;
            NoneEmpty(longer) && Levelled(chunks[1..], |longer|) && |longer| == |path| + |chunks[0].parts| &&
            Read(Spell(chunks, |path|), Fill(path)) == Read(Spell(chunks[1..], |longer|), Fill(longer))
  {
    var parts := chunks[0].parts;
    FillParts(path, parts);
    BareExtends(path, parts);
    ReadChunk(chunks, path, Fill(path));
    ConcatNoneEmpty(path, parts);
    assert |path + parts| == |path| + |parts|;
  }

  lemma {:induction false} UnambiguousLevelled(chunks: seq<Chunk>, level: nat)
    requires Unambiguous(chunks, level)
    ensures Levelled(chunks, level)
    decreases |chunks|
  {
    if chunks != [] {
      UnambiguousLevelled(chunks[1..], level + |chunks[0].parts|);
    }
  }

  lemma PathStep(chunks: seq<Chunk>, path: seq<string>)
    requires chunks != []
    ensures path + chunks[0].parts + Path(chunks[1..]) == path + Path(chunks)
  {
  }

  lemma {:induction false} ReadSpelled(chunks: seq<Chunk>, path: seq<string>)
    requires Unambiguous(chunks, |path|) && NoneEmpty(path)
    ensures Read(Spell(chunks, |path|), Fill(path)) == Fill(path + Path(chunks))
    decreases |chunks|
  {
    if chunks == [] {
      assert path + Path(chunks) == path;
    } else {
      UnambiguousLevelled(chunks, |path|);
      ChunkExtends(chunks, path);
      ReadSpelled(chunks[1..], path + chunks[0].parts);
      PathStep(chunks, path);
    }
  }

  /**
   Every unambiguous notation of a path is read as that path, whatever ignorable words and
   brackets stand between its tokens.
   */
  lemma NotationParses(tokens: seq<Token>, chunks: seq<Chunk>)
    requires Unambiguous(chunks, 0) && Strip(tokens) == Spell(chunks, 0)
    ensures ParseAt(tokens, 0, EMPTY) == Fill(Path(chunks))
  {
    ParseReads(tokens, 0, EMPTY);
    assert tokens[0..] == tokens;
    ReadSpelled(chunks, []);
    assert [] + Path(chunks) == Path(chunks);
  }

  /** The numbers of a path one by one, all in one style. */
  function OneByOne(path: seq<string>, style: Style): (r: seq<Chunk>) {
    if path == [] then [] else [Chunk([path[0]], style)] + OneByOne(path[1..], style)
  }

  lemma {:induction false} OneByOneUnambiguous(path: seq<string>, style: Style, level: nat)
    requires level + |path| <= LEVELS && NoneEmpty(path)
    ensures Unambiguous(OneByOne(path, style), level) && Path(OneByOne(path, style)) == path
    decreases |path|
  {
    if path != [] {
      OneByOneUnambiguous(path[1..], style, level + 1);
      var chunks := OneByOne(path, style);
      assert chunks[1..] == OneByOne(path[1..], style);
      assert chunks[0].parts == [path[0]];
      assert [path[0]] + path[1..] == path;
    }
  }

  /**
   A path of depth 1 to 4 written with the label before every number, after every number, or
   with brackets or other ignorable tokens only, is read as that path.
   */
  lemma UniformNotationParses(tokens: seq<Token>, path: seq<string>, style: Style)
    requires 1 <= |path| <= LEVELS && ValidParts(path) && Strip(tokens) == Spell(OneByOne(path, style), 0)
    ensures ParseAt(tokens, 0, EMPTY) == Fill(path)
  {
    OneByOneUnambiguous(path, style, 0);
    NotationParses(tokens, OneByOne(path, style));
  }

  /** A dotted number of any length, labelled or not, is read as its parts. */
  lemma DottedParses(tokens: seq<Token>, path: seq<string>, style: Style)
    requires ValidParts(path) && Strip(tokens) == Spell([Chunk(path, style)], 0)
    ensures ParseAt(tokens, 0, EMPTY) == Fill(path)
  {
    var chunks := [Chunk(path, style)];
    assert chunks[1..] == [] && Path(chunks) == path + [] == path;
    NotationParses(tokens, chunks);
  }

  function Fields(loc: Locator): (r: seq<string>) {
    (if loc.article.Some? then [loc.article.value] else []) +
    (if loc.paragraph.Some? then [loc.paragraph.value] else []) +
    (if loc.subparagraph.Some? then [loc.subparagraph.value] else []) +
    (if loc.item.Some? then [loc.item.value] else [])
  }

  lemma {:induction false} JoinSplit(head: seq<string>, tail: seq<string>)
    requires tail != []
    ensures JoinDots(head + tail) == JoinDots(head + [JoinDots(tail)])
    decreases |tail|
  {
    if |tail| == 1 {
      assert [JoinDots(tail)] == tail;
    } else {
      var before, last := tail[..|tail| - 1], tail[|tail| - 1];
      JoinSplit(head, before);
      assert (head + tail)[..|head + tail| - 1] == head + before;
      JoinLast(head, JoinDots(before), last);
    }
  }

  lemma JoinLast(head: seq<string>, a: string, b: string)
    ensures JoinDots(head + [a]) + "." + b == JoinDots(head + [a + "." + b])
  {
    if head == [] {
      assert head + [a] == [a] && head + [a + "." + b] == [a + "." + b];
    } else {
      assert (head + [a])[..|head|] == head && (head + [a + "." + b])[..|head|] == head;
      assert JoinDots(head) + "." + a + "." + b == JoinDots(head) + "." + (a + "." + b);
    }
  }

  /** Joining the four fields gives back the dotted number, however long it was. */
  lemma FieldsRecoverPath(path: seq<string>)
    ensures JoinDots(Fields(Fill(path))) == JoinDots(path)
  {
    if |path| <= 3 {
      assert Fields(Fill(path)) == path;
    } else {
      assert path == path[..3] + path[3..];
      assert Fields(Fill(path)) == path[..3] + [JoinDots(path[3..])];
      JoinSplit(path[..3], path[3..]);
    }
  }

  /**
   The excluded notation: a bare number before a label takes that label, so "17 paragraph 2"
   is read as article 2, paragraph 17.
   */
  lemma BareBeforeLabelSwaps(a: string, b: string)
    requires a != "" && b != ""
    ensures ParseAt(Spell([Chunk([a], Bare), Chunk([b], LabelBefore)], 0), 0, EMPTY) == Fill([b, a])
  {
    var chunks := [Chunk([a], Bare), Chunk([b], LabelBefore)];
    var tokens := [Number([a]), Role(1), Number([b])];
    assert Spell(chunks, 0) == tokens by {
      assert Spell(chunks[1..], 1) == [Role(1), Number([b])] + Spell(chunks[1..][1..], 2);
    }
    assert Skip(tokens, 1) == 1 && Skip(tokens, 3) == 3;
    var first := EMPTY.(paragraph := Some(a));
    AssignOne(EMPTY, 1, a);
    AssignOne(first, ARTICLE_LEVEL, b);
    assert ParseAt(tokens, 2, first) == ParseAt(tokens, 3, Fill([b, a]));
  }

  lemma AssignOne(loc: Locator, level: nat, part: string)
    ensures AssignFrom(loc, level, [part]) == AssignPart(loc, level, part)
  {
    assert [part][1..] == [];
  }

  // ----- Exactly which notations are read as spelled -----

  /** The text is this number, alone or followed by a dot. */
  predicate StartsWith(text: string, number: string) {
    text == number || number + "." <= text
  }

  predicate DotFree(parts: seq<string>) {
    forall i :: 0 <= i < |parts| ==> '.' !in parts[i]
  }

  lemma StartsShorter(text: string, a: string, b: string)
    requires StartsWith(text, a) && StartsWith(text, b) && |a| < |b|
    ensures '.' in b
  {
    assert text[|a|] == '.' && b == text[..|b|];
    assert b[|a|] in b;
  }

  lemma StartsUnique(text: string, a: string, b: string)
    requires StartsWith(text, a) && StartsWith(text, b) && '.' !in a && '.' !in b
    ensures a == b
  {
    assert a == text[..|a|] && b == text[..|b|];
    if |a| < |b| {
      StartsShorter(text, a, b);
    } else if |b| < |a| {
      StartsShorter(text, b, a);
    }
  }

  /** The field of the level is filled, starting with this number. */
  predicate Holds(loc: Locator, level: nat, number: string) {
    Get(loc, level).Some? && Get(loc, level).value != "" && StartsWith(Get(loc, level).value, number)
  }

  lemma AssignPartHolds(loc: Locator, level: nat, part: string, m: nat, number: string)
    requires m < LEVELS && Holds(loc, m, number)
    ensures Holds(AssignPart(loc, level, part), m, number)
  {
    if level >= LEVELS && m == ITEM_LEVEL {
      assert loc.item.value <= loc.item.value + "." + part;
      assert (loc.item.value + "." + part)[..|loc.item.value| + 1] == loc.item.value + ".";
    }
  }

  lemma {:induction false} AssignHolds(loc: Locator, level: nat, parts: seq<string>, m: nat, number: string)
    requires m < LEVELS && Holds(loc, m, number)
    ensures Holds(AssignFrom(loc, level, parts), m, number)
    decreases |parts|
  {
    if parts != [] {
      AssignPartHolds(loc, level, parts[0], m, number);
      var next := if level >= LEVELS then level else level + 1;
      AssignHolds(AssignPart(loc, level, parts[0]), next, parts[1..], m, number);
    }
  }

  /** A filled field keeps its first number whatever is read after it. */
  lemma {:induction false} ReadHolds(s: seq<Token>, loc: Locator, m: nat, number: string)
    requires m < LEVELS && Holds(loc, m, number)
    ensures Holds(Read(s, loc), m, number)
    decreases |s|
  {
    if s == [] {
    } else if |s| >= 2 && s[0].Role? && s[1].Number? {
      AssignHolds(loc, s[0].level, s[1].parts, m, number);
      ReadHolds(s[2..], AssignFrom(loc, s[0].level, s[1].parts), m, number);
    } else if |s| >= 2 && s[0].Number? && s[1].Role? {
      AssignHolds(loc, s[1].level, s[0].parts, m, number);
      ReadHolds(s[2..], AssignFrom(loc, s[1].level, s[0].parts), m, number);
    } else {
      if s[0].Number? {
        AssignHolds(loc, ARTICLE_LEVEL, s[0].parts, m, number);
        AssignHolds(loc, NextEmpty(loc), s[0].parts, m, number);
      }
      ReadHolds(s[1..], if s[0].Number? then AssignBare(loc, s[0].parts) else loc, m, number);
    }
  }

  /** Parts assigned from an empty level put their first number there. */
  lemma AssignFirstHolds(loc: Locator, level: nat, parts: seq<string>)
    requires level < LEVELS && Get(loc, level).None? && ValidParts(parts)
    ensures Holds(AssignFrom(loc, level, parts), level, parts[0])
  {
    var next := AssignPart(loc, level, parts[0]);
    assert Holds(next, level, parts[0]);
    AssignHolds(next, level + 1, parts[1..], level, parts[0]);
  }

  lemma {:induction false} JoinStarts(parts: seq<string>)
    requires parts != []
    ensures StartsWith(JoinDots(parts), parts[0])
    decreases |parts|
  {
    if |parts| > 1 {
      var before := parts[..|parts| - 1];
      JoinStarts(before);
      var joined := JoinDots(before) + ".";
      assert parts[0] + "." <= joined by {
        if JoinDots(before) != parts[0] {
          assert joined[..|parts[0]| + 1] == parts[0] + ".";
        }
      }
      assert JoinDots(parts) == joined + parts[|parts| - 1];
      assert JoinDots(parts)[..|parts[0]| + 1] == parts[0] + ".";
    }
  }

  /** In the locator of a path, the field of a level starts with the number at that depth. */
  lemma FillHolds(path: seq<string>, m: nat)
    requires m < LEVELS && m < |path| && NoneEmpty(path)
    ensures Holds(Fill(path), m, path[m])
  {
    if m == ITEM_LEVEL {
      JoinStarts(path[3..]);
      JoinNotEmpty(path[3..]);
    }
  }

  lemma SwapSpelling(chunks: seq<Chunk>, level: nat) returns (rest: seq<Token>)
    requires |chunks| > 1 && Levelled(chunks, level) && !FirstKeepsNumber(chunks)
    ensures var m := level + |chunks[0].parts|;
            m < LEVELS && |chunks[0].parts| > 0 && NoneEmpty(chunks[0].parts) &&
            Spell(chunks, level) == [Number(chunks[0].parts), Role(m)] + rest
  {
    var m := level + |chunks[0].parts|;
    var others := chunks[1..];
    var after := Spell(others[1..], m + |others[0].parts|);
    SpellFirst(chunks, level);
    SpellFirst(others, m);
    rest := [Number(others[0].parts)] + after;
    assert [Role(m), Number(others[0].parts)] + after == [Role(m)] + rest;
    assert [Number(chunks[0].parts)] + ([Role(m)] + rest) == [Number(chunks[0].parts), Role(m)] + rest;
  }

  lemma SpellFirst(chunks: seq<Chunk>, level: nat)
    requires chunks != []
    ensures Spell(chunks, level) == SpellChunk(chunks[0], level) + Spell(chunks[1..], level + |chunks[0].parts|)
  {
  }

  /** A bare number in front of a label: the field of that label starts with the bare number, for good. */
  lemma SwapMisreads(chunks: seq<Chunk>, path: seq<string>)
    requires |chunks| > 1 && Levelled(chunks, |path|) && !FirstKeepsNumber(chunks) && NoneEmpty(path)
    ensures var m := |path| + |chunks[0].parts|;
            m < LEVELS && Holds(Read(Spell(chunks, |path|), Fill(path)), m, chunks[0].parts[0])
  {
    var p, m := chunks[0].parts, |path| + |chunks[0].parts|;
    var rest := SwapSpelling(chunks, |path|);
    ReadLabelled(m, p, rest, Fill(path));
    AssignFirstHolds(Fill(path), m, p);
    ReadHolds(rest, AssignFrom(Fill(path), m, p), m, p[0]);
  }

  lemma {:induction false} PathNoneEmpty(chunks: seq<Chunk>, level: nat)
    requires Levelled(chunks, level)
    ensures NoneEmpty(Path(chunks))
    decreases |chunks|
  {
    if chunks != [] {
      PathNoneEmpty(chunks[1..], level + |chunks[0].parts|);
      ConcatNoneEmpty(chunks[0].parts, Path(chunks[1..]));
    }
  }

  /** Distinct numbers after a swap: the result is not the spelled path. */
  lemma SwapIsNotPath(chunks: seq<Chunk>, path: seq<string>, whole: seq<string>)
    requires |chunks| > 1 && Levelled(chunks, |path|) && !FirstKeepsNumber(chunks) && NoneEmpty(path)
    requires whole == path + Path(chunks) && NoRepeats(whole) && DotFree(whole) && NoneEmpty(whole)
    ensures Read(Spell(chunks, |path|), Fill(path)) != Fill(whole)
  {
    var n, m := |path|, |path| + |chunks[0].parts|;
    SwapMisreads(chunks, path);
    assert chunks[1..][0] == chunks[1] && Path(chunks[1..]) == chunks[1].parts + Path(chunks[1..][1..]);
    assert whole[n] == chunks[0].parts[0] && m < |whole|;
    FillHolds(whole, m);
    if Read(Spell(chunks, n), Fill(path)) == Fill(whole) {
      StartsUnique(Get(Fill(whole), m).value, whole[n], whole[m]);
    }
  }

  lemma {:induction false} AmbiguousMisread(chunks: seq<Chunk>, path: seq<string>, whole: seq<string>)
    requires Levelled(chunks, |path|) && !Unambiguous(chunks, |path|) && NoneEmpty(path)
    requires whole == path + Path(chunks) && NoRepeats(whole) && DotFree(whole) && NoneEmpty(whole)
    ensures Read(Spell(chunks, |path|), Fill(path)) != Fill(whole)
    decreases |chunks|
  {
    if FirstKeepsNumber(chunks) {
      ChunkExtends(chunks, path);
      PathStep(chunks, path);
      AmbiguousMisread(chunks[1..], path + chunks[0].parts, whole);
    } else {
      SwapIsNotPath(chunks, path, whole);
    }
  }

  /**
   The exact condition: groups at existing levels, whose numbers are distinct and have no dots,
   are read as the path they spell if and only if no bare group stands right before a label.
   */
  lemma ReadAsSpelledExactly(tokens: seq<Token>, chunks: seq<Chunk>)
    requires Levelled(chunks, 0) && NoRepeats(Path(chunks)) && DotFree(Path(chunks)) &&
             Strip(tokens) == Spell(chunks, 0)
    ensures ParseAt(tokens, 0, EMPTY) == Fill(Path(chunks)) <==> Unambiguous(chunks, 0)
  {
    if Unambiguous(chunks, 0) {
      NotationParses(tokens, chunks);
    } else {
      ParseReads(tokens, 0, EMPTY);
      assert tokens[0..] == tokens;
      PathNoneEmpty(chunks, 0);
      assert [] + Path(chunks) == Path(chunks);
      AmbiguousMisread(chunks, [], Path(chunks));
    }
  }
}
