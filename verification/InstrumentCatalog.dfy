/**
 The catalogue of legal instruments and the search for the longest of their aliases in a
 tokenized citation. Aliases and citations come as token lists; `lemma` maps a token to its
 dictionary form.
 */
module InstrumentCatalog {
  import opened Prelude

  type Tokens = seq<string>

  datatype Instrument = Instrument(code: string, aliases: seq<Tokens>)
  datatype Alias = Alias(tokens: Tokens, instrument: Instrument)
  datatype Match = Match(instrument: Instrument, rest: Tokens)

  function Lemmas(tokens: Tokens, lemma_: string -> string): (r: Tokens)
    ensures |r| == |tokens| && forall i :: 0 <= i < |r| ==> r[i] == lemma_(tokens[i])
  {
    seq(|tokens|, i requires 0 <= i < |tokens| => lemma_(tokens[i]))
  }

  // ----- Ordering -----

  /** The length of the tokens joined with spaces. */
  function JoinedLength(tokens: Tokens): (r: nat)
    decreases |tokens|
  {
    if tokens == [] then 0 else if |tokens| == 1 then |tokens[0]|
    else JoinedLength(tokens[..|tokens| - 1]) + 1 + |tokens[|tokens| - 1]|
  }

  /** The tokens joined with spaces. */
  function Joined(tokens: Tokens): (r: string) {
    if tokens == [] then "" else if |tokens| == 1 then tokens[0] else tokens[0] + " " + Joined(tokens[1..])
  }

  lemma {:induction false} JoinedSnoc(tokens: Tokens, last: string)
    requires tokens != []
    ensures Joined(tokens + [last]) == Joined(tokens) + " " + last
  {
    if |tokens| > 1 {
      assert (tokens + [last])[1..] == tokens[1..] + [last];
      JoinedSnoc(tokens[1..], last);
      var t := Joined(tokens[1..]);
      assert tokens[0] + " " + (t + " " + last) == (tokens[0] + " " + t) + " " + last;
    } else {
      assert (tokens + [last])[1..] == [last];
    }
  }

  lemma {:induction false} JoinedLengthIs(tokens: Tokens)
    ensures JoinedLength(tokens) == |Joined(tokens)|
    decreases |tokens|
  {
    if |tokens| > 1 {
      var before, last := tokens[..|tokens| - 1], tokens[|tokens| - 1];
      assert tokens == before + [last];
      JoinedLengthIs(before);
      JoinedSnoc(before, last);
    }
  }

  predicate SortsBefore(a: Alias, b: Alias) {
    |a.tokens| > |b.tokens| || (|a.tokens| == |b.tokens| && JoinedLength(a.tokens) > JoinedLength(b.tokens))
  }

  function Insert(s: seq<Alias>, a: Alias): (r: seq<Alias>)
    decreases |s|
  {
    if s == [] then [a]
    else if SortsBefore(a, s[|s| - 1]) then Insert(s[..|s| - 1], a) + [s[|s| - 1]]
    else s + [a]
  }

  /** The stable sort by token count, then by joined length, longest first. */
  function Sort(s: seq<Alias>): (r: seq<Alias>)
    decreases |s|
  {
    if s == [] then [] else Insert(Sort(s[..|s| - 1]), s[|s| - 1])
  }

  /** No alias stands behind one that it sorts before. */
  ghost predicate Sorted(s: seq<Alias>) {
    forall i, j :: 0 <= i < j < |s| ==> !SortsBefore(s[j], s[i])
  }

  predicate Ties(a: Alias, b: Alias) {
    !SortsBefore(a, b) && !SortsBefore(b, a)
  }

  /** The aliases that tie with `a`, in list order. */
  function TiedWith(s: seq<Alias>, a: Alias): (r: seq<Alias>)
    decreases |s|
  {
    if s == [] then []
    else TiedWith(s[..|s| - 1], a) + if Ties(s[|s| - 1], a) then [s[|s| - 1]] else []
  }

  lemma {:induction false} InsertKeeps(s: seq<Alias>, a: Alias)
    ensures multiset(Insert(s, a)) == multiset(s) + multiset{a}
    ensures Sorted(s) ==> Sorted(Insert(s, a))
    decreases |s|
  {
    if s != [] {
      var before, last := s[..|s| - 1], s[|s| - 1];
      assert s == before + [last];
      if SortsBefore(a, last) {
        InsertKeeps(before, a);
        if Sorted(s) {
          InsertBelow(before, a, last);
        }
      } else if Sorted(s) {
        forall i | 0 <= i < |s|
          ensures !SortsBefore(a, s[i])
        {
          assert !SortsBefore(last, s[i]) || i == |s| - 1;
        }
      }
    }
  }

  lemma InsertBelow(before: seq<Alias>, a: Alias, last: Alias)
    requires SortsBefore(a, last) && Sorted(before + [last])
    requires multiset(Insert(before, a)) == multiset(before) + multiset{a} &&
             (Sorted(before) ==> Sorted(Insert(before, a)))
    ensures Sorted(Insert(before, a) + [last])
  {
    var s := before + [last];
    assert forall i :: 0 <= i < |before| ==> before[i] == s[i];
    forall i | 0 <= i < |Insert(before, a)|
      ensures !SortsBefore(last, Insert(before, a)[i])
    {
      assert Insert(before, a)[i] in multiset(Insert(before, a));
      if Insert(before, a)[i] != a {
        assert Insert(before, a)[i] in before;
        var j :| 0 <= j < |before| && s[j] == Insert(before, a)[i];
        assert !SortsBefore(s[|before|], s[j]);
      }
    }
  }

  lemma {:induction false} InsertStable(s: seq<Alias>, a: Alias, b: Alias)
    ensures TiedWith(Insert(s, a), b) == TiedWith(s + [a], b)
    decreases |s|
  {
    assert (s + [a])[..|s|] == s;
    if s != [] && SortsBefore(a, s[|s| - 1]) {
      var before, last := s[..|s| - 1], s[|s| - 1];
      InsertStable(before, a, b);
      assert (Insert(before, a) + [last])[..|Insert(before, a)|] == Insert(before, a);
      assert (before + [a])[..|before|] == before;
      assert !Ties(a, b) || !Ties(last, b);
    }
  }

  /** The sort is a stable sort: a permutation, in order, that leaves aliases that tie in their order. */
  lemma {:induction false} SortSorts(s: seq<Alias>, b: Alias)
    ensures multiset(Sort(s)) == multiset(s) && Sorted(Sort(s)) && TiedWith(Sort(s), b) == TiedWith(s, b)
    decreases |s|
  {
    if s != [] {
      var before, last := s[..|s| - 1], s[|s| - 1];
      assert s == before + [last];
      SortSorts(before, b);
      InsertKeeps(Sort(before), last);
      InsertStable(Sort(before), last, b);
      assert (Sort(before) + [last])[..|Sort(before)|] == Sort(before);
    }
  }

  // ----- Compiling the catalogue -----

  /** What `compileInstrumentCatalog` returns. */
  datatype Catalog = Catalog(byCode: map<string, Instrument>, aliases: seq<Alias>)

  /** The alias is the lemmatized form of an alias of its instrument, and not empty. */
  ghost predicate Compiled(instruments: seq<Instrument>, lemma_: string -> string, a: Alias) {
    a.instrument in instruments && a.tokens != [] &&
    exists alias :: alias in a.instrument.aliases && Lemmas(alias, lemma_) == a.tokens
  }

  ghost predicate DistinctCodes(instruments: seq<Instrument>) {
    forall i, j :: 0 <= i < j < |instruments| ==> instruments[i].code != instruments[j].code
  }

  /** The distinct non-empty lemmatized forms of the first `k` aliases of an instrument, in order of first use. */
  function OwnAliases(instrument: Instrument, lemma_: string -> string, k: nat): (r: seq<Alias>)
    requires k <= |instrument.aliases|
  {
    if k == 0 then []
    else
      var before := OwnAliases(instrument, lemma_, k - 1);
      var next := Alias(Lemmas(instrument.aliases[k - 1], lemma_), instrument);
      if next.tokens == [] || next in before then before else before + [next]
  }

  /** The aliases of all instruments, instrument by instrument. */
  function AllAliases(instruments: seq<Instrument>, lemma_: string -> string): (r: seq<Alias>)
    decreases |instruments|
  {
    if instruments == [] then []
    else
      var last := instruments[|instruments| - 1];
      AllAliases(instruments[..|instruments| - 1], lemma_) + OwnAliases(last, lemma_, |last.aliases|)
  }

  lemma {:induction false} OwnAliasesMeaning(instrument: Instrument, lemma_: string -> string, k: nat)
    requires k <= |instrument.aliases|
    ensures NoRepeats(OwnAliases(instrument, lemma_, k))
    ensures forall a :: a in OwnAliases(instrument, lemma_, k) <==>
              a.instrument == instrument && a.tokens != [] &&
              exists i :: 0 <= i < k && Lemmas(instrument.aliases[i], lemma_) == a.tokens
  {
    if k > 0 {
      OwnAliasesMeaning(instrument, lemma_, k - 1);
    }
  }

  /** The list holds exactly the compiled aliases, and each once when codes are distinct. */
  lemma {:induction false} AllAliasesMeaning(instruments: seq<Instrument>, lemma_: string -> string)
    ensures forall a :: a in AllAliases(instruments, lemma_) <==> Compiled(instruments, lemma_, a)
    ensures DistinctCodes(instruments) ==> NoRepeats(AllAliases(instruments, lemma_))
    decreases |instruments|
  {
    if instruments != [] {
      var before, last := instruments[..|instruments| - 1], instruments[|instruments| - 1];
      assert instruments == before + [last];
      AllAliasesMeaning(before, lemma_);
      OwnAliasesMeaning(last, lemma_, |last.aliases|);
      forall a
        ensures a in OwnAliases(last, lemma_, |last.aliases|) <==> Compiled([last], lemma_, a)
      {
        if Compiled([last], lemma_, a) {
          var alias :| alias in last.aliases && Lemmas(alias, lemma_) == a.tokens;
          var i :| 0 <= i < |last.aliases| && last.aliases[i] == alias;
        }
      }
      CompiledSnoc(before, last, lemma_);
      var earlier, own := AllAliases(before, lemma_), OwnAliases(last, lemma_, |last.aliases|);
      assert AllAliases(instruments, lemma_) == earlier + own;
      if DistinctCodes(instruments) {
        assert DistinctCodes(before) && last !in before by {
          assert forall i :: 0 <= i < |before| ==> before[i] == instruments[i];
        }
        ApartNoRepeats(earlier, own);
      }
    }
  }

  lemma ApartNoRepeats<T>(a: seq<T>, b: seq<T>)
    requires NoRepeats(a) && NoRepeats(b) && forall x :: x in a ==> x !in b
    ensures NoRepeats(a + b)
  {
    forall i, j | 0 <= i < |a| && 0 <= j < |b|
      ensures a[i] != b[j]
    {
      assert a[i] in a && b[j] in b;
    }
  }

  lemma CompiledSnoc(instruments: seq<Instrument>, last: Instrument, lemma_: string -> string)
    ensures forall a :: Compiled(instruments + [last], lemma_, a) <==>
              Compiled(instruments, lemma_, a) || Compiled([last], lemma_, a)
  {
  }

  /** The distinct non-empty lemmatized aliases of one instrument, in order. */
  method CompileAliases(instrument: Instrument, lemma_: string -> string) returns (compiled: seq<Alias>)
    ensures compiled == OwnAliases(instrument, lemma_, |instrument.aliases|)
  {
    var seen: set<Tokens> := {};
    compiled := [];
    for k := 0 to |instrument.aliases|
      invariant compiled == OwnAliases(instrument, lemma_, k)
      invariant forall t :: t in seen <==> Alias(t, instrument) in compiled
    {
      var tokens := Lemmas(instrument.aliases[k], lemma_);
      if tokens == [] || tokens in seen {
        continue;
      }
      seen := seen + {tokens};
      compiled := compiled + [Alias(tokens, instrument)];
    }
  }

  /** The map holds every instrument under its code, and nothing else. */
  ghost predicate Registers(byCode: map<string, Instrument>, instruments: seq<Instrument>) {
    (forall x :: x in instruments ==> x.code in byCode && byCode[x.code] == x) &&
    forall c :: c in byCode ==> byCode[c].code == c && byCode[c] in instruments
  }

  /** One more instrument whose code is new. */
  lemma NextInstrument(byCode: map<string, Instrument>, instruments: seq<Instrument>, k: nat, lemma_: string -> string)
    requires k < |instruments| && DistinctCodes(instruments[..k]) && Registers(byCode, instruments[..k])
    requires instruments[k].code !in byCode
    ensures DistinctCodes(instruments[..k + 1])
    ensures Registers(byCode[instruments[k].code := instruments[k]], instruments[..k + 1])
    ensures AllAliases(instruments[..k + 1], lemma_) ==
            AllAliases(instruments[..k], lemma_) + OwnAliases(instruments[k], lemma_, |instruments[k].aliases|)
  {
    assert instruments[..k + 1] == instruments[..k] + [instruments[k]];
    assert instruments[..k + 1][..k] == instruments[..k];
    assert forall i :: 0 <= i < k ==> instruments[..k][i] in instruments[..k];
  }

  /** A code seen before is the code of an earlier instrument. */
  lemma CodeRepeats(byCode: map<string, Instrument>, instruments: seq<Instrument>, k: nat)
    requires k < |instruments| && Registers(byCode, instruments[..k]) && instruments[k].code in byCode
    ensures !DistinctCodes(instruments)
  {
    var x := byCode[instruments[k].code];
    var i :| 0 <= i < k && instruments[..k][i] == x;
    assert instruments[i].code == instruments[k].code;
  }

  /** `compileInstrumentCatalog`; a repeated code is an error. */
  method CompileInstrumentCatalog(instruments: seq<Instrument>, lemma_: string -> string)
    returns (catalog: Option<Catalog>)
    ensures catalog.Some? <==> DistinctCodes(instruments)
    ensures catalog.Some? ==> catalog.value.aliases == Sort(AllAliases(instruments, lemma_))
    ensures catalog.Some? ==> Registers(catalog.value.byCode, instruments)
  {
    var byCode: map<string, Instrument> := map[];
    var aliases: seq<Alias> := [];
    for k := 0 to |instruments|
      invariant Registers(byCode, instruments[..k])
      invariant DistinctCodes(instruments[..k])
      invariant aliases == AllAliases(instruments[..k], lemma_)
    {
      var instrument := instruments[k];
      if instrument.code in byCode {
        CodeRepeats(byCode, instruments, k);
        return None;
      }
      NextInstrument(byCode, instruments, k, lemma_);
      byCode := byCode[instrument.code := instrument];
      var own := CompileAliases(instrument, lemma_);
      aliases := aliases + own;
    }
    assert instruments[..|instruments|] == instruments;
    return Some(Catalog(byCode, Sort(aliases)));
  }

  /** A compiled catalogue lists every compiled alias once, longest first. */
  lemma CatalogMeaning(instruments: seq<Instrument>, lemma_: string -> string, catalog: seq<Alias>)
    requires DistinctCodes(instruments) && catalog == Sort(AllAliases(instruments, lemma_))
    ensures NoRepeats(catalog) && Sorted(catalog)
    ensures forall a :: a in catalog <==> Compiled(instruments, lemma_, a)
    ensures forall b :: TiedWith(catalog, b) == TiedWith(AllAliases(instruments, lemma_), b)
  {
    var all := AllAliases(instruments, lemma_);
    AllAliasesMeaning(instruments, lemma_);
    forall b
      ensures multiset(catalog) == multiset(all) && Sorted(catalog) && TiedWith(catalog, b) == TiedWith(all, b)
    {
      SortSorts(all, b);
    }
    SortSorts(all, Alias([], Instrument("", [])));
    forall a
      ensures a in catalog <==> a in all
      ensures Count(catalog, a) <= 1
    {
      CountPositive(catalog, a);
      CountPositive(all, a);
      if a in all {
        NoRepeatsCount(all, a);
      }
    }
    CountsNoRepeats(catalog);
  }

  // ----- Matching -----

  predicate OccursAt(haystack: Tokens, needle: Tokens, at: nat) {
    at + |needle| <= |haystack| && haystack[at..at + |needle|] == needle
  }

  predicate Occurs(haystack: Tokens, needle: Tokens) {
    exists at :: 0 <= at <= |haystack| && OccursAt(haystack, needle, at)
  }

  /** An empty needle is never found. */
  predicate Found(haystack: Tokens, needle: Tokens) {
    needle != [] && Occurs(haystack, needle)
  }

  /** The leftmost occurrence of a non-empty needle. */
  method IndexOfSequence(haystack: Tokens, needle: Tokens) returns (index: Option<nat>)
    ensures index.None? <==> !Found(haystack, needle)
    ensures index.Some? ==> OccursAt(haystack, needle, index.value)
    ensures index.Some? ==> forall at :: 0 <= at < index.value ==> !OccursAt(haystack, needle, at)
  {
    if needle == [] || |needle| > |haystack| {
      return None;
    }
    for start := 0 to |haystack| - |needle| + 1
      invariant forall at :: 0 <= at < start ==> !OccursAt(haystack, needle, at)
    {
      var matched := true;
      var offset := 0;
      while offset < |needle|
        invariant 0 <= offset <= |needle| && forall i :: 0 <= i < offset ==> haystack[start + i] == needle[i]
      {
        if haystack[start + offset] != needle[offset] {
          matched := false;
          assert haystack[start..start + |needle|][offset] != needle[offset];
          break;
        }
        offset := offset + 1;
      }
      if matched {
        assert OccursAt(haystack, needle, start);
        return Some(start);
      }
    }
    return None;
  }

  /** The alias at `k` is the first of the catalogue that occurs, and its leftmost occurrence is cut out. */
  ghost predicate FirstMatch(tokens: Tokens, lemma_: string -> string, catalog: seq<Alias>, k: nat, m: Match) {
    k < |catalog| && m.instrument == catalog[k].instrument &&
    (forall j :: 0 <= j < k ==> !Found(Lemmas(tokens, lemma_), catalog[j].tokens)) && catalog[k].tokens != [] &&
    exists at: nat :: OccursAt(Lemmas(tokens, lemma_), catalog[k].tokens, at) &&
      (forall earlier: nat :: earlier < at ==> !OccursAt(Lemmas(tokens, lemma_), catalog[k].tokens, earlier)) &&
      m.rest == tokens[..at] + tokens[at + |catalog[k].tokens|..]
  }

  /**
   `matchInstrument`: nothing exactly when no alias of the catalogue occurs, and otherwise the
   first one, in catalogue order, that does.
   */
  method MatchInstrument(catalog: seq<Alias>, tokens: Tokens, lemma_: string -> string) returns (m: Option<Match>)
    ensures m.None? <==> forall a :: a in catalog ==> !Found(Lemmas(tokens, lemma_), a.tokens)
    ensures m.Some? ==> exists k :: FirstMatch(tokens, lemma_, catalog, k, m.value)
  {
    var lemmatized := Lemmas(tokens, lemma_);
    for k := 0 to |catalog|
      invariant forall j :: 0 <= j < k ==> !Found(lemmatized, catalog[j].tokens)
    {
      var alias := catalog[k];
      assert alias in catalog;
      var index := IndexOfSequence(lemmatized, alias.tokens);
      if index.Some? {
        assert OccursAt(lemmatized, alias.tokens, index.value);
        m := Some(Match(alias.instrument, tokens[..index.value] + tokens[index.value + |alias.tokens|..]));
        assert FirstMatch(tokens, lemma_, catalog, k, m.value);
        return;
      }
    }
    return None;
  }

  /**
   In a compiled catalogue the alias matched is an alias of an instrument that occurs, and no
   alias of any instrument that occurs sorts before it: it has the most tokens, among those the
   longest text, and among those it was listed first.
   */
  lemma LongestAliasWins(instruments: seq<Instrument>, lemma_: string -> string, catalog: seq<Alias>, tokens: Tokens,
                         k: nat, m: Match, b: Alias)
    requires DistinctCodes(instruments) && catalog == Sort(AllAliases(instruments, lemma_))
    requires FirstMatch(tokens, lemma_, catalog, k, m)
    requires Compiled(instruments, lemma_, b) && Occurs(Lemmas(tokens, lemma_), b.tokens)
    ensures Compiled(instruments, lemma_, catalog[k]) && Occurs(Lemmas(tokens, lemma_), catalog[k].tokens)
    ensures |b.tokens| <= |catalog[k].tokens|
    ensures |b.tokens| == |catalog[k].tokens| ==> |Joined(b.tokens)| <= |Joined(catalog[k].tokens)|
    ensures Ties(b, catalog[k]) && b != catalog[k] ==> ListedBefore(AllAliases(instruments, lemma_), catalog[k], b)
  {
    CatalogMeaning(instruments, lemma_, catalog);
    assert catalog[k] in catalog && b in catalog;
    var j :| 0 <= j < |catalog| && catalog[j] == b;
    assert k <= j;
    JoinedLengthIs(b.tokens);
    JoinedLengthIs(catalog[k].tokens);
    var at: nat :| OccursAt(Lemmas(tokens, lemma_), catalog[k].tokens, at);
    if Ties(b, catalog[k]) && b != catalog[k] {
      TiedKeepsOrder(catalog, k, j, b);
      ListedInTies(AllAliases(instruments, lemma_), catalog[k], b);
    }
  }

  ghost predicate ListedBefore(s: seq<Alias>, a: Alias, b: Alias) {
    exists i, j :: 0 <= i < j < |s| && s[i] == a && s[j] == b
  }

  lemma {:induction false} TiedMembers(s: seq<Alias>, a: Alias, x: Alias)
    ensures x in TiedWith(s, a) <==> x in s && Ties(x, a)
    decreases |s|
  {
    if s != [] {
      TiedMembers(s[..|s| - 1], a, x);
      assert s == s[..|s| - 1] + [s[|s| - 1]];
    }
  }

  lemma {:induction false} TiedKeepsOrder(s: seq<Alias>, i: nat, j: nat, b: Alias)
    requires i < j < |s| && Ties(s[i], b) && Ties(s[j], b)
    ensures ListedBefore(TiedWith(s, b), s[i], s[j])
    decreases |s|
  {
    var before, last := s[..|s| - 1], s[|s| - 1];
    var ties := TiedWith(before, b);
    if j < |s| - 1 {
      TiedKeepsOrder(before, i, j, b);
      var x, y :| 0 <= x < y < |ties| && ties[x] == s[i] && ties[y] == s[j];
      assert TiedWith(s, b)[x] == s[i] && TiedWith(s, b)[y] == s[j];
    } else {
      assert before[i] in before;
      TiedMembers(before, b, s[i]);
      var x :| 0 <= x < |ties| && ties[x] == s[i];
      assert TiedWith(s, b)[x] == s[i] && TiedWith(s, b)[|ties|] == s[j];
    }
  }

  lemma {:induction false} ListedInTies(s: seq<Alias>, a: Alias, b: Alias)
    requires ListedBefore(TiedWith(s, b), a, b)
    ensures ListedBefore(s, a, b)
    decreases |s|
  {
    if s != [] {
      var before, last := s[..|s| - 1], s[|s| - 1];
      var ties, all := TiedWith(before, b), TiedWith(s, b);
      var x, y :| 0 <= x < y < |all| && all[x] == a && all[y] == b;
      if y < |ties| {
        assert ties[x] == a && ties[y] == b;
        ListedInTies(before, a, b);
        var i, j :| 0 <= i < j < |before| && before[i] == a && before[j] == b;
        assert s[i] == a && s[j] == b;
      } else {
        assert ties[x] == a && a in ties;
        TiedMembers(before, b, a);
        var i :| 0 <= i < |before| && before[i] == a;
        assert s[i] == a && s[|s| - 1] == b;
      }
    }
  }
}
