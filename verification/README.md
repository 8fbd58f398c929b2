# Verified model of the legal-corpus engine

The engine reads law pages into a tree of legal nodes, checks the tree at a publication gate,
publishes document versions with citations, answers "law as of a date" queries, and crawls a
catalogue of laws with resume. This project models those parts in Dafny and proves what they
keep. `dafny verify dfyconfig.toml` checks everything.

**How it is laid out.** Loops and objects of the source are methods and classes; each is proved
equal to a function of its inputs or old state, and the theorems are lemmas about these
functions and about all runs of them.

- Parsing: `ParserModel` is the line loop as a state machine over classified lines;
  `ParserInvariants`, `ParserLocators`, `ParserReadings`, `ParserText`, `ParserContents` and
  `ParserTree` prove what every run keeps; `LegalInfoParser` is the same loop on linked mutable node objects.
  `LocatorGrammar` spells and recognizes locators. `Gate` judges the tree.
- Trees: `LegalNodes`, `Hierarchy`, `HierarchyCheck`, `TreeStore` and `Evaluation`.
- Publication: `Versions`, `IngestModel`, `IngestInvariants`, `IngestTheorems`, and
  `IngestStore` with the tables as mutable fields.
- Reading: `CitationQuery` (numbers read from a locator), `Citations` (audit, published lookup,
  verification), `Retrieval` and `RetrievalComplete` (what each route returns). `ParsedPage` says when the whole gate passes a parsed page;
  `Pipeline` joins parsing, gate, publication and verification; `Scenarios` holds concrete runs.
- Crawling: `Discovery` (sessions that may stop anywhere), `DiscoveryResume` (what a session takes
  over from earlier ones) and `DiscoveryService` (the loops).
- Smaller components: `CitationLocator`, `InstrumentCatalog`, `BlobStore`, `RateLimiting`,
  `LegacyLocators`, `Backfill`. `Prelude` holds shared vocabulary.

**What is taken from outside.** Lines and tokens arrive classified, with the digits that the
patterns captured, and trimmed. Ids come from a generator or primary key: fresh, unique and not
empty. Hashes are functions that never return a blank text; only the blob store needs them to
be free of collisions. Timestamps are absent, unparsable or an instant in milliseconds. The
phrase parser for citations (except on locators, where it is modelled), the case-insensitive
title test of the database, the ranked search result, the dictionary form of a token, the
pattern for page chrome and the expectations about known laws are parameters. Histories are
kept in number order, as the repository reads them. Stores that are only read may also hold
drafts, withdrawn and migrated rows. Sessions of the crawl follow one another, on a listing
that does not change. Timers of the rate limiter do not fire early and its clock does not run
backwards.

**Where the code does less than its name or comment suggests** (modelled as the code is):

- The gate raises no reason for rows of a foreign version
  (`src/application/ingest/publication-gate.ts:54-67`); `Gate.ForeignVersionsUnnoticed`.
- "Unchanged" may name a superseded version: bytes A, B, A
  (`src/application/ingest/ingest-legalinfo.service.ts:482-501`), see
  `Scenarios.OldBytesNameSupersededVersion`.
- A source update is refused when the current version starts after the clock reading; both
  instants must be other than zero, because the check on the order of bounds skips zero
  (`src/domain/services/document-version.ts:5-28`). `IngestTheorems.KnownDocumentPublishes`
  gives the exact condition, `Scenarios.FutureVersionRefusesUpdate` an instance.
- Lookup by node id looks at the interval but not at the status
  (`src/application/legal-corpus/corpus-retrieval.ts:54-67`); `Retrieval.NodeRouteStatus` says
  when it returns a superseded version.
- A locator such as `art-17.1` is also read as article 17, paragraph 1
  (`src/application/citations/parse-citation-query.ts:16-24`); with both in a version it is a
  conflict. `Citations.LocatorVerifiesExactly` gives the exact condition.
- Legacy locators may collide when a number contains the collision marker
  (`src/domain/services/legacy-article-locator.ts:79-90`); `LegacyLocators.DistinctExactly`.
- A put that reuses a blob file does not wait for its creator's sync, and a process that dies
  while writing blocks its content for good (`packages/storage/src/local-blob-store.ts:86-120`);
  `BlobStore.StaysExactlyWhenSynced` and `BlobStore.BlockedExactly` say exactly when. The directory
  is never synced, so a power failure may drop even a synced blob (`BlobStore.DroppedEntryLosesBlob`).
- The citation backfill passes by a version whose counts match although entries are missing, when
  stray entries stand in for them (`scripts/backfill-citation-index.ts:178-184`), and a second run
  may visit a version with a stray entry again: `Backfill.SecondRunTouchesNothing`.
- Spacing of operations is kept for one caller at a time only
  (`src/infrastructure/http/rate-limiter.ts:10-25`).
- An empty-string parent id counts as no parent in the assembler
  (`src/domain/services/legal-node-hierarchy.ts:82`); `Hierarchy.RoundTripExactly` says exactly
  when flattening and assembling lose the tree.
- A bare number in front of a label is read as the number of that label
  (`packages/citation-normalizer/src/locator.ts:64-70`); `CitationLocator.ReadAsSpelledExactly`.

## Model

| member | source | states |
|---|---|---|
| `ParserTree.GateVerdict` | src/application/ingest/publication-gate.ts:40-92 | For every sequence of lines the structural clauses of the gate (hierarchy assertion, structure report, citation locators, locator grammar, levels) raise no reason on the parsed tree if and only if the lines call for no locator twice; every structural reason raised is over a repeated locator, and when a locator repeats the hierarchy assertion, the structure report, the citation check and the confidence check all report it |
| `ParserTree.SlotsVerdict` | src/application/ingest/publication-gate.ts:40-92 | The same verdict for every node arena that satisfies the parser invariant, whatever lines led to it |
| `ParsedPage.ConfidenceVerdict` | src/parsers/legalinfo/confidence.ts:26-55 | On a parsed page the confidence check finds no recognizable provisions if and only if no article heading was read, malformed numbering if and only if an article heading was numbered 0, too few nodes if and only if there was no heading at all, and no legal text if and only if no line that the parser kept has any content |
| `ParsedPage.GatePasses` | src/application/ingest/publication-gate.ts:24-113 | The whole gate lets a parsed page through if and only if title and act type are there, the hashes agree, no effective end is set, no row is page chrome, no expectation about a known law is unmet, and the lines name no locator twice, some article, none numbered 0, and have some content |
| `ParserTree.ParsedTree` | src/parsers/legalinfo/legalinfo-html.parser.ts:95-263 | The parsed rows form exactly one tree, rooted at the DOCUMENT node, that holds each row exactly once |
| `ParserTree.ParsedShape` | src/parsers/legalinfo/legalinfo-html.parser.ts:95-263 | Ids of the parsed tree are unique and not empty, every parent id names a row of an allowed type, and there is exactly one DOCUMENT root |
| `ParserTree.RowSound` | src/application/ingest/publication-gate.ts:10-11 | Every parsed row has a non-blank locator inside the locator grammar and a non-blank content hash, is of no structural level, and has no chapter "0" |
| `ParserTree.HierarchyVerdict` | src/domain/services/legal-node-hierarchy.ts:11-47 | The hierarchy assertion accepts the parsed tree if and only if its locators are distinct, and otherwise throws for a duplicate locator |
| `ParserInvariants.RunInv` | src/parsers/legalinfo/legalinfo-html.parser.ts:87-263 | After every sequence of lines: cursors are nested nodes of the right types, every node hangs under the node its parent id names and carries its parent's article, paragraph and clause numbers and its own, every locator extends its parent's by its own number, every content hash is that of the final locator and text, and lookup siblings have distinct locators |
| `ParserInvariants.StepKeepsInv` | src/parsers/legalinfo/legalinfo-html.parser.ts:95-263 | Each of the eight kinds of line keeps that invariant |
| `ParserInvariants.AppendTextMeaning` | src/parsers/legalinfo/legalinfo-html.parser.ts:399-409 | Appending a line that the text includes, or an empty one, leaves the text; otherwise the text is the old one, a blank and the line, or the line alone when there was no text. The old text stays as a prefix and the content hash follows the text |
| `ParserLocators.LocatorSpellsPath` | src/parsers/legalinfo/legalinfo-html.parser.ts:107-239 | In every reachable state a node's locator spells a valid path made of its own type and numbers |
| `ParserLocators.RunAgrees` | src/parsers/legalinfo/legalinfo-html.parser.ts:95-263 | A scanner that knows only the heading numbers and the set of known articles predicts, line by line, the open article and the locators of all chapters, articles, annexes and sub-clauses, in order |
| `ParserLocators.LocatorDeterminesSlot` | src/parsers/legalinfo/legalinfo-html.parser.ts:185-243 | When no chapter, article, annex or sub-clause locator repeats, equal locators belong to the same node: paragraphs and clauses are reopened, never duplicated |
| `ParserLocators.DistinctIffKeysDistinct` | src/parsers/legalinfo/legalinfo-html.parser.ts:185-243 | Whatever the lines, and however qualified lines jump back to earlier articles: all locators are distinct if and only if the scanned locators are |
| `ParserLocators.AnnexesCollide` | src/parsers/legalinfo/legalinfo-html.parser.ts:167-183 | Two annexes share a locator if and only if no child of the root was created from the first up to the second, that is, both lie in one chapter with no later chapter or root child between them |
| `ParserLocators.FindArticleComplete` | src/parsers/legalinfo/legalinfo-html.parser.ts:329-344 | The article search below root and chapters finds a token exactly when some article node carries it |
| `ParserText.NoTextLost` | src/parsers/legalinfo/legalinfo-html.parser.ts:185-262 | The content of every heading, and of every line read while an article is open, is included in the final text of a node that stands for the numbers of the line and lies in the very article the scan of the earlier lines predicts; it is the node the line is said to land on |
| `ParserText.RunGrows` | src/parsers/legalinfo/legalinfo-html.parser.ts:399-409 | Between any two moments of a parse no node disappears, changes its numbers or locator, or loses a prefix of its text |
| `ParserText.StepLands` | src/parsers/legalinfo/legalinfo-html.parser.ts:104-262 | One line: every text grows by suffix and every node stays where it was pushed, and a kept line lands on the node, in the article, that the two scans of the earlier lines predict |
| `ParserText.DroppedLinesDoNotMatter` | src/parsers/legalinfo/legalinfo-html.parser.ts:256-262 | Leaving out every chrome line, and every line that is no heading and is read while no article is open, changes nothing in the result of a parse |
| `ParserContents.StepAdds` | src/parsers/legalinfo/legalinfo-html.parser.ts:104-262 | One line adds exactly its content, once, to the text of the node it lands on, and changes no other text; a node that the line creates has exactly that content |
| `ParserContents.RunTexts` | src/parsers/legalinfo/legalinfo-html.parser.ts:95-263 | After every sequence of lines the text of each node is made of the contents of the lines that landed on it, in order, separated by blanks, none repeated that was there already |
| `ParserContents.RunTitles` | src/parsers/legalinfo/legalinfo-html.parser.ts:95-183 | After every sequence of lines each node has the title that the line which opened it gave: the chapter heading, the title of the article or else "Article" and its number, the first 120 characters of an annex heading, and none for other nodes |
| `ParserContents.RunHashes` | src/parsers/legalinfo/legalinfo-html.parser.ts:399-409 | After every sequence of lines each node carries the hash of its own locator and final text |
| `ParserReadings.RunFollows` | src/parsers/legalinfo/legalinfo-html.parser.ts:185-254 | A scan that knows only article numbers in order, which article is open, and the paragraph numbers met below each article follows every run of the parser |
| `ParserReadings.ReadingPredicted` | src/parsers/legalinfo/legalinfo-html.parser.ts:200-216 | On a line N.M the parser opens clause M of paragraph N if and only if the scan knows a paragraph N of the article the line goes to, and a simple line opened an N under that article number; otherwise it opens paragraph M |
| `ParserReadings.PairDecides` | src/parsers/legalinfo/legalinfo-html.parser.ts:200-216 | When no article number repeats, that is the case if and only if an earlier simple line opened paragraph N of the article |
| `ParserReadings.SearchKnown` | src/parsers/legalinfo/legalinfo-html.parser.ts:329-344 | The article search finds the first article, in the order of the lines, that carries the token, also when article numbers repeat |
| `LocatorGrammar.SpellInjective` | src/application/ingest/publication-gate.ts:10-11 | Two valid article, paragraph, clause and sub-clause paths with the same spelling are the same path |
| `LocatorGrammar.SpelledInGrammar` | src/application/ingest/publication-gate.ts:10-11 | Every valid path is spelled inside the locator grammar of the gate |
| `LegalInfoParser.Parse` | src/parsers/legalinfo/legalinfo-html.parser.ts:76-263 | The loop over linked, mutable node objects returns a root whose reachable objects form exactly the tree of the model, for every sequence of lines |
| `LegalInfoParser.Parser.OnLine` | src/parsers/legalinfo/legalinfo-html.parser.ts:95-263 | One line does to the objects, the four cursors and the set of simple paragraphs what the model's step does to its state; only fresh objects are added |
| `LegalInfoParser.Parser.OnChapter` | src/parsers/legalinfo/legalinfo-html.parser.ts:104-122 | A chapter heading pushes a chapter under the root and clears the other cursors |
| `LegalInfoParser.Parser.OnArticle` | src/parsers/legalinfo/legalinfo-html.parser.ts:124-165 | An article heading pushes an article under the open chapter or the root and clears the inner cursors |
| `LegalInfoParser.Parser.OnAnnex` | src/parsers/legalinfo/legalinfo-html.parser.ts:167-183 | An annex is pushed with a number taken from the root's child count, and the cursors below the chapter are cleared |
| `LegalInfoParser.Parser.OnQualified` | src/parsers/legalinfo/legalinfo-html.parser.ts:185-243 | A qualified line picks its article, then reads N.M as a clause of a simple paragraph or as a paragraph of its own, with clause and sub-clause branches |
| `LegalInfoParser.Parser.OnSimple` | src/parsers/legalinfo/legalinfo-html.parser.ts:245-254 | A simple numbered line reopens or creates its paragraph, remembers it as simple and appends the text |
| `LegalInfoParser.Parser.OnText` | src/parsers/legalinfo/legalinfo-html.parser.ts:256-262 | Any other line continues the innermost open node, or is dropped |
| `LegalInfoParser.EnsureParagraphNode` | src/parsers/legalinfo/legalinfo-html.parser.ts:346-370 | Returns the paragraph with the locator if the article has one, else pushes a new one |
| `LegalInfoParser.EnsureClauseNode` | src/parsers/legalinfo/legalinfo-html.parser.ts:372-397 | Returns the clause with the locator if the paragraph has one, else pushes a new one |
| `LegalInfoParser.FindArticleNode` | src/parsers/legalinfo/legalinfo-html.parser.ts:329-344 | Returns the object of the first article with the token among the root's children and its chapters' children |
| `LegalInfoParser.AppendTextTo` | src/parsers/legalinfo/legalinfo-html.parser.ts:399-409 | Updates text and hash of one object and leaves every other object as it was |
| `Gate.AssessPublicationGate` | src/application/ingest/publication-gate.ts:24-113 | The reasons returned are exactly those whose condition on the input and the flattened tree holds, each once: confidence in the parse, hashes, hierarchy, structure report, rows, effective end and the unmet expectations about a known law; the tree passes if and only if there is none |
| `Gate.AssessParseConfidence` | src/parsers/legalinfo/confidence.ts:10-55 | Raises exactly the doubts that hold of title, act type, version and tree; without a version it looks no further |
| `Gate.StructureReasons` | src/application/ingest/publication-gate.ts:48-67 | Which lists of the structure report raise a reason; cycles and foreign versions raise none |
| `Gate.ForeignVersionsUnnoticed` | src/application/ingest/publication-gate.ts:54-67 | The structure report fails while the gate draws no reason from it if and only if nothing it looks at is at fault and some row carries a foreign version; a cycle always comes with a reason of another kind |
| `Gate.ForeignDocumentUnnoticed` | src/application/ingest/publication-gate.ts:54-67 | A page of a single DOCUMENT row that carries another version is such a case |
| `Gate.FindCitationCollision` | src/application/ingest/publication-gate.ts:69-79 | Found if and only if two rows other than DOCUMENT rows share a locator |
| `Gate.RowReasons` | src/application/ingest/publication-gate.ts:69-101 | The citation, locator-grammar, structural-level and page-chrome reasons are raised if and only if some row, or pair of rows, is at fault |
| `Hierarchy.RoundTripExactly` | src/domain/services/legal-node-hierarchy.ts:73-103 | For every forest with unique ids and agreeing parents, assembling its flattened rows gives the same trees back if and only if no row has the empty string for a parent id |
| `Hierarchy.EmptyIdSplitsTree` | src/domain/services/legal-node-hierarchy.ts:82-86 | A node with an empty id and one child: the child comes back as a second root |
| `Hierarchy.AssembleUndoesFlatten` | src/domain/services/legal-node-hierarchy.ts:73-103 | Without an empty parent id, assembling the flattened rows of such a forest gives the same trees back with the same child order |
| `Hierarchy.FlattenOfAssembly` | src/domain/services/legal-node-hierarchy.ts:73-103 | For every list with unique ids, flatten after assemble holds each row once, except exactly the rows whose ancestor chain never ends |
| `Hierarchy.AssemblyMatches` | src/domain/services/legal-node-hierarchy.ts:73-89 | The assembled forest puts every row under the row its parent id names, children in list order, for every list with unique ids |
| `Hierarchy.MatchesUnique` | src/domain/services/legal-node-hierarchy.ts:73-89 | No other tree over the same rows has that property |
| `Hierarchy.RepeatIsEndless` | src/application/evaluation/evaluate-version.ts:158-176 | A chain of parents that meets a row twice never ends |
| `Hierarchy.FiniteChainBound` | src/application/evaluation/evaluate-version.ts:158-176 | A chain that ends is shorter than the list |
| `HierarchyCheck.AcceptedMeaning` | src/domain/services/legal-node-hierarchy.ts:4-47 | The indexing walk reports nothing if and only if ids and locators are unique, parent ids name the tree parents, and locators and hashes are not blank |
| `HierarchyCheck.FirstErrorMeaning` | src/domain/services/legal-node-hierarchy.ts:15-40 | The walk throws at the first node in walk order that violates a rule, over the first rule it violates: repeated id, wrong parent id, repeated locator, blank locator, blank hash |
| `HierarchyCheck.AssertLegalNodeHierarchy` | src/domain/services/legal-node-hierarchy.ts:11-71 | Throws exactly the first violation in walk order; once the indexing walk accepts, the search for cycles cannot throw |
| `HierarchyCheck.IndexWalk.Index` | src/domain/services/legal-node-hierarchy.ts:15-40 | The recursive walk that grows the id and locator sets stops at the first violation of its subtree and otherwise adds exactly the subtree's ids and locators |
| `TreeStore.AssembleLegalNodeTree` | src/domain/services/legal-node-hierarchy.ts:73-89 | The two loops over a map of mutable objects link exactly the forest of the model, also for lists with cycles, dangling parents or repeated ids (the last row with an id wins, in the place of the first) |
| `TreeStore.EntriesMeaning` | src/domain/services/legal-node-hierarchy.ts:73-89 | Of a list with repeated ids the map keeps the last row of every id, in the place of the first |
| `TreeStore.FlattenLegalNodes` | src/domain/services/legal-node-hierarchy.ts:91-103 | The walk over linked objects lists their rows in pre-order |
| `Evaluation.DetectCycles` | src/application/evaluation/evaluate-version.ts:158-176 | For unique ids, lists each locator of a row whose ancestor chain never ends, once, and nothing else |
| `Evaluation.ChainRepeats` | src/application/evaluation/evaluate-version.ts:164-174 | The inner walk terminates and answers true for every endless chain, and for unique ids only for those |
| `Evaluation.EvaluateVersionStructure` | src/application/evaluation/evaluate-version.ts:27-92 | Each list names exactly the rows with its defect, in order, and PASS means that no row has any defect and there is one DOCUMENT root |
| `Evaluation.ParentHasLowerRank` | src/application/evaluation/parent-types.ts:3-25 | The table of allowed parents strictly lowers a rank between 0 and 8 |
| `Evaluation.RankBoundsChains` | src/application/evaluation/parent-types.ts:3-25 | Allowed parent types alone rule out endless chains and bound every chain by nine rows |
| `Evaluation.PassMeaning` | src/application/evaluation/evaluate-version.ts:67-77 | The cycle list never decides the result: when every other list is empty, so is it |
| `Evaluation.PassAssemblesOneTree` | src/application/evaluation/evaluate-version.ts:67-77 | A passing list with unique ids and no empty parent id assembles into one tree, rooted at its DOCUMENT row, that holds every row once |
| `Versions.VersionsDoNotOverlap` | src/domain/services/document-version.ts:41-56 | The nested loops answer true if and only if no two published versions overlap |
| `Versions.OverlapMeaning` | src/domain/services/document-version.ts:41-56 | Intervals whose bounds are in order overlap if and only if some instant lies in both, bounds included |
| `Versions.FindPublishedForDocument` | src/infrastructure/prisma/prisma-legal-document-version.repository.ts:79-103 | Without an instant the published version with the greatest number; with one, the published or superseded version with the greatest number that covers it |
| `Versions.ExtendWellKept` | src/application/ingest/ingest-legalinfo.service.ts:510-520 | Superseding the current version and adding the next keeps a history well kept: numbered 1..n, only the last published and open, no (bytes, parser) pair twice |
| `Versions.CanonicalizationKeepsAsOf` | src/application/ingest/ingest-legalinfo.service.ts:507-519 | A re-parse of the same bytes changes no as-of answer at any instant, up to the status of the row that answers |
| `Versions.SourceUpdateAsOf` | src/application/ingest/ingest-legalinfo.service.ts:511-519 | A source update changes answers exactly inside [from, now) of the version it supersedes, and there the answer becomes that version |
| `Versions.FlagMeaning` | src/domain/services/document-version.ts:30-39 | Once the (bytes, parser) pair is new, the flag computed from the first version with the same bytes holds if and only if some stored version is a canonicalization partner |
| `IngestInvariants.RunKeepsInv` | src/application/ingest/ingest-legalinfo.service.ts:479-626 | After every run of publishes and reviews from an empty store: well-kept histories, stored trees that obey the hierarchy rules, and one citation for every stored row that is no DOCUMENT row, with distinct keys |
| `IngestInvariants.PublishKeepsInv` | src/application/ingest/ingest-legalinfo.service.ts:479-626 | One publish keeps that invariant, on new and known documents |
| `IngestInvariants.DocumentHistory` | src/application/ingest/ingest-legalinfo.service.ts:503-520 | A document with versions has exactly one published version, it has the greatest number, numbers are 1..n, and (bytes, parser) pairs are distinct |
| `IngestInvariants.FreshCitations` | src/application/ingest/ingest-legalinfo.service.ts:629-652 | The citations written for a version repeat its rows one to one (DOCUMENT rows apart), with distinct keys, nodes and locators |
| `IngestTheorems.OverlapUnreachable` | src/application/legal-corpus/persist-document.ts:65-74 | From every reachable store a publish never fails for overlapping published versions |
| `IngestTheorems.KnownDocumentPublishes` | src/application/ingest/ingest-legalinfo.service.ts:480-575 | On a known document the answer is "unchanged" if and only if the bytes were stored under this parser; otherwise the publish succeeds if and only if row and tree are acceptable and, for a source update, the current version does not start after the clock reading |
| `IngestTheorems.NewDocumentPublishes` | src/application/ingest/ingest-legalinfo.service.ts:577-625 | On an unknown page the publish succeeds if and only if row and tree are acceptable |
| `IngestTheorems.UnchangedNames` | src/application/ingest/ingest-legalinfo.service.ts:482-502 | "Unchanged" leaves the store alone and names the version with these bytes and parser, which is the published one if and only if it is the last |
| `Scenarios.OldBytesNameSupersededVersion` | src/application/ingest/ingest-legalinfo.service.ts:482-501 | Publishing bytes A, B and A again, from an empty store, answers "unchanged" with the id of a superseded version |
| `Scenarios.FutureVersionRefusesUpdate` | src/application/ingest/ingest-legalinfo.service.ts:510-519 | A reachable store whose current version starts after the clock reading of a source update, which is refused |
| `IngestTheorems.PublishIsIdempotent` | src/application/ingest/ingest-legalinfo.service.ts:482-502 | Publishing the same page again at any later time changes nothing and names the same version |
| `IngestTheorems.PublishPreserves` | src/application/ingest/ingest-legalinfo.service.ts:510-550 | A publish touches no stored node row or citation and changes an older version at most in status and in an upper bound that was not set, and only in its own document |
| `IngestTheorems.RunPreserves` | src/application/ingest/ingest-legalinfo.service.ts:479-626 | Whatever is stored at some point of a run is still stored, unaltered in that sense, at its end |
| `IngestTheorems.AsOfAfterPublish` | src/application/ingest/ingest-legalinfo.service.ts:503-549 | The as-of answer after a publish differs from the one before only by a source update and only inside [from, now) of the superseded version |
| `IngestTheorems.PublishStores` | src/application/ingest/ingest-legalinfo.service.ts:503-549 | After a successful publish the document carries the title and is in force; its last row carries the hash, parser, archive record and id of the request and, for a source update only, its start; every earlier row is superseded, and the last of them closed at the clock reading by a source update only. It is a source update if and only if no stored row has these bytes and this archive record under another parser |
| `IngestTheorems.PublishStoresPage` | src/application/ingest/ingest-legalinfo.service.ts:629-652 | After a successful publish the version holds the rows of the page in order, each stamped with the version, and one citation for each that is no DOCUMENT row, in order, with its node, locator, text and hash, the page address, and the key made of law id and locator |
| `IngestTheorems.RunInForce` | src/application/ingest/ingest-legalinfo.service.ts:522-534 | In every reachable store a document is marked in force if and only if a version of it was published |
| `IngestTheorems.RunTitlesGiven` | src/application/ingest/ingest-legalinfo.service.ts:522-534 | In every run a document carries a title that some publish or review gave its page |
| `IngestTheorems.ReparseKeepsAnswers` | src/application/ingest/ingest-legalinfo.service.ts:503-519 | Whatever happened since a page was published: publishing the same bytes from the same archive record under a parser not stored before changes no as-of answer of the document |
| `IngestTheorems.PublishFlagMeaning` | src/application/ingest/ingest-legalinfo.service.ts:503-509 | The flag computed inside publish holds if and only if some stored version is a canonicalization partner |
| `IngestTheorems.TreeReadsBack` | src/domain/services/legal-node-hierarchy.ts:73-103 | The rows stored for an accepted tree assemble into that tree again, stamped with the version |
| `IngestStore.CorpusStore.Publish` | src/application/ingest/ingest-legalinfo.service.ts:479-626 | The method that updates the tables in place, and restores them when the unit of work fails, leaves exactly the tables and outcome of the specification |
| `IngestStore.CorpusStore.SupersedePublished` | src/application/ingest/ingest-legalinfo.service.ts:510-519 | Saves every published row as superseded, and stops exactly when a row would be refused |
| `IngestStore.CorpusStore.PersistWith` | src/application/legal-corpus/persist-document.ts:43-87 | All checks come before any write: an error leaves the tables alone |
| `IngestStore.CorpusStore.PublishCitations` | src/application/ingest/ingest-legalinfo.service.ts:629-652 | The loop stores the specified citations under the version |
| `Citations.EvaluateCitationRoundTrip` | src/application/evaluation/evaluate-version.ts:94-143 | The loop records, citation by citation, exactly the failures of the specification; the ok count is never less than the number of citations without a failure, equals it when record ids are unique, and is the full count if and only if there is no failure |
| `Citations.AuditMeaning` | src/application/evaluation/evaluate-version.ts:94-143 | For a citation whose node is there, the audit records exactly the ways in which it fails against that node, each once: locator, version, empty source text (of the four levels that carry text), empty citation text, missing hash on either side |
| `Citations.AuditMissing` | src/application/evaluation/evaluate-version.ts:94-143 | For a citation whose node is not there it records that and nothing else |
| `Citations.FailuresComplete` | src/application/evaluation/evaluate-version.ts:94-143 | Every way in which a citation fails is recorded, under its id and locator |
| `Citations.FailuresNamed` | src/application/evaluation/evaluate-version.ts:94-143 | Every recorded failure is one of a citation with that id and locator |
| `Citations.StoredCitationsAudit` | src/application/evaluation/evaluate-version.ts:94-143 | Auditing the citations of any stored version finds no missing node, no locator or version mismatch and no missing hash: a citation fails if and only if its row has no text |
| `Citations.FindPublishedMatches` | src/infrastructure/prisma/prisma-citation.repository.ts:47-126 | The loop keeps the first answering row of each version and node, in table order |
| `Citations.MatchesFound` | src/infrastructure/prisma/prisma-citation.repository.ts:100-124 | Those rows are answers only, include every provision that answers, and name each provision once |
| `Citations.VerifyOne` | src/application/citations/corpus-citation-validator.ts:29-60 | On the fields of the candidate and of the rows: UNRESOLVED if and only if no row is meant, by text, id, locator or numbers, within document, title and time; CONFLICT if and only if rows of two provisions are; else VALID naming a row that is meant. Nothing is named otherwise, and "as of unavailable" is given exactly for unresolved requests with an instant |
| `Citations.TitleHintDecides` | src/infrastructure/prisma/prisma-citation.repository.ts:82-98 | With a title hint no row of a document whose title fails the test answers, whatever else is given |
| `Citations.ArticlePhraseValid` | src/application/citations/corpus-citation-validator.ts:29-60 | A phrase read as a title and article a is VALID if and only if the published documents with that title hold exactly one provision with the locator or the number of article a |
| `Citations.ParagraphPhraseValid` | src/application/citations/corpus-citation-validator.ts:29-60 | The same for a title, article a and paragraph p |
| `Citations.StatusMeaning` | src/domain/services/citation-status.ts:8-21 | The size of the set of provisions says whether none, one or several provisions answer |
| `Citations.LocatorVerifiesExactly` | src/application/citations/corpus-citation-validator.ts:29-60 | In every reachable store the locator of a row of the current version, in the grammar of the gate and given with its document, is answered; by that row alone if and only if the article and paragraph numbers that the phrase parser reads from the locator point at no other row of the version |
| `Citations.LocatorVerifies` | src/application/citations/corpus-citation-validator.ts:29-60 | A locator without a dot always verifies to its own row |
| `Citations.DottedArticleConflicts` | src/application/citations/parse-citation-query.ts:12-26 | When a version holds both article a.b and paragraph b of article a, the locator of article a.b is a conflict |
| `Pipeline.NamesakePageConflicts` | src/application/citations/parse-citation-query.ts:12-26 | Every published page that has article a.b and a paragraph b of article a makes the locator of article a.b a conflict |
| `Pipeline.DottedPageConflicts` | src/application/citations/parse-citation-query.ts:12-26 | Three lines published into an empty store are enough |
| `CitationQuery.DottedLocatorHints` | src/application/citations/parse-citation-query.ts:12-26 | From the locator of any provision of a dotted article a.b the phrase parser reads article a, paragraph b and the locator of that paragraph |
| `LocatorGrammar.LocatorsArePlain` | src/application/ingest/publication-gate.ts:10-11 | No text with a colon, or with any letter outside the locator words, matches the locator pattern |
| `Pipeline.NewPagePublishes` | src/application/ingest/ingest-legalinfo.service.ts:577-625 | For every sequence of lines on an unknown page with an acceptable version row: the structural clauses of the gate are silent if and only if the publish succeeds, and that is if and only if the lines call for no locator twice |
| `Pipeline.KnownPagePublishes` | src/application/ingest/ingest-legalinfo.service.ts:480-575 | New bytes or a new parser for a known page: the publish succeeds if and only if the lines call for no locator twice and, for a source update, the current version does not start after the clock reading |
| `Pipeline.PageReadsBack` | src/application/ingest/ingest-legalinfo.service.ts:479-626 | After any publish of a parsed page, known or not, the rows stored assemble into the parsed tree, stamped with the version |
| `Pipeline.PageVerifies` | src/application/citations/corpus-citation-validator.ts:29-60 | The locator of every provision then stored is answered, and verifies to that provision alone if and only if no row of the page carries the locator spelled by the dotted number in it |
| `Retrieval.AnswerBacked` | src/application/legal-corpus/corpus-retrieval.ts:53-189 | On every lookup route, over stores that may hold drafts, withdrawn and migrated rows, every authority reports a stored node of a version that covers the instant, if one is given, and, except by node id, is published or (with an instant) superseded |
| `RetrievalComplete.CitedComplete` | src/application/legal-corpus/corpus-retrieval.ts:116-149 | The answer to cited phrases is one part for each phrase, in order, and the part of a phrase reports, in table order and once, exactly the provisions the phrase means |
| `RetrievalComplete.CitedProvisionAnswered` | src/application/legal-corpus/corpus-retrieval.ts:116-149 | Whatever any of the cited phrases means has an authority in the answer |
| `RetrievalComplete.KeyComplete` | src/application/legal-corpus/corpus-retrieval.ts:86-114 | With a citation key or a locator, exactly the provisions asked for by text, key, locator, numbers and title are answered, each once and in table order |
| `RetrievalComplete.ListsAll` | src/infrastructure/prisma/prisma-citation.repository.ts:100-124 | In such a list every fitting row of the table has an authority of its version and node |
| `RetrievalComplete.ListsOnly` | src/infrastructure/prisma/prisma-citation.repository.ts:100-124 | In such a list every authority reports a fitting row |
| `RetrievalComplete.ListsOnce` | src/infrastructure/prisma/prisma-citation.repository.ts:100-124 | In such a list no version and node is named twice |
| `RetrievalComplete.ProvisionsApart` | src/infrastructure/prisma/prisma-citation.repository.ts:103 | Where version ids hold no colon, rows of different versions or nodes are told apart |
| `RetrievalComplete.NodeComplete` | src/application/legal-corpus/corpus-retrieval.ts:54-67 | A node id is answered, by that node alone, if and only if node and version are known and the version encloses the instant, if one is given |
| `RetrievalComplete.DocumentComplete` | src/application/legal-corpus/corpus-retrieval.ts:69-83 | A document id is answered from the version with the greatest number that may be shown, by every row of it whose chain of parents ends, each once and in the order of the tree they form; without such a version by nothing |
| `RetrievalComplete.QuestionComplete` | src/domain/services/open-question-search.ts:20-48 | An open question is answered, in rank order, by the best ranked eligible hit of every document and locator; a blank one by nothing |
| `RetrievalComplete.PlacesApart` | src/domain/services/open-question-search.ts:40 | Where document ids hold no colon, hits of different documents or locators are told apart |
| `Retrieval.NodeRouteStatus` | src/application/legal-corpus/corpus-retrieval.ts:54-67 | The node route answers whatever the status is; without an instant, in a reachable store, its version is superseded if and only if it is not the last of its document |
| `Scenarios.NodeOfSupersededVersion` | src/application/legal-corpus/corpus-retrieval.ts:54-67 | A reachable store in which a lookup by node id returns a node of a superseded version |
| `Retrieval.ReachableSound` | src/application/ingest/ingest-legalinfo.service.ts:479-626 | What the retrieval theorems ask of a store holds in every reachable one |
| `Retrieval.AsOfFilterRemovesNothing` | src/application/legal-corpus/corpus-retrieval.ts:29-45 | With an instant, the final filter on version bounds has nothing left to remove |
| `Retrieval.Retrieve` | src/application/legal-corpus/corpus-retrieval.ts:26-51 | Returns the answer of the route, cut to its first hundred authorities, each of which reports a stored node of a version that may be shown; with an instant the status is OK if and only if there is one |
| `Retrieval.Lookup` | src/application/legal-corpus/corpus-retrieval.ts:53-155 | The reads and loops give the answer of the first route whose field is given; what that answer holds is said route by route in `RetrievalComplete` |
| `Retrieval.FilterAndDedupeCandidates` | src/domain/services/open-question-search.ts:20-48 | Keeps, in rank order, exactly the first candidate of each document and locator whose version covers the instant |
| `Retrieval.MatchReports` | src/application/legal-corpus/corpus-retrieval.ts:101-113 | An authority built from a citation row reports the node its citation was written for, field by field |
| `Discovery.CompletedJobsMissNothing` | apps/scraper/src/legalinfo/service.ts:40-194 | After any number of sessions, each stopped by a signal, an error or a crash anywhere, with or without loss of the checkpoint, and resumed or not: when a job is COMPLETED, every document on every page that a full crawl reaches has a crawl result for its URL in that job or a failed attempt in that job |
| `Discovery.RowsStayUnique` | apps/scraper/src/legalinfo/persist.ts:35-110 | In every such run no job holds two results for a URL, no law has two documents, and every result names a stored law |
| `Discovery.StoreMeaning` | apps/scraper/src/legalinfo/persist.ts:50-85 | After a document is stored its law has a row and every row of it the new checksum; rows of other laws are as they were, and a row is added only for a law that had none |
| `Discovery.RunFromCatalogue` | apps/scraper/src/legalinfo/persist.ts:35-110 | In every run each crawl result joins a URL and a law, and each document row a law and a checksum, that some listed document joins |
| `Discovery.StepKeepsInv` | apps/scraper/src/legalinfo/service.ts:79-194 | Each step of a session, and each way it can end, keeps what checkpoint, completed keys, seen URLs and position promise about coverage |
| `Discovery.BeginKeepsInv` | apps/scraper/src/legalinfo/service.ts:217-268 | A session that starts from any disk state starts from promises about coverage that hold; which job it continues is said in `DiscoveryResume.BeginTakesOver` |
| `DiscoveryResume.BeginTakesOver` | apps/scraper/src/legalinfo/service.ts:217-268 | With `resume` a session continues the unfinished job of the checkpoint, or else the last unfinished one, and otherwise, or without `resume`, it opens a new job; it takes over the completed keys and the page of a usable checkpoint and the URLs the job has stored, sets its job running, and changes nothing else |
| `DiscoveryResume.NewJobStartsFresh` | apps/scraper/src/legalinfo/service.ts:256-268 | A new job starts with no completed key and no seen URL |
| `DiscoveryResume.SessionContinues` | apps/scraper/src/legalinfo/service.ts:40-178 | Whatever happened before and for as long as a session goes on: it is for the right job, is in no key the checkpoint lists as completed and on no page before the checkpointed one, writes no row for a URL the job held, and each attempt it records is of its job and of a URL left to do |
| `DiscoveryResume.InterruptedSessionResumes` | apps/scraper/src/legalinfo/service.ts:114-268 | A session that throws or stops in the middle of a page, with its checkpoint intact, is taken up by the next session with `resume`: same job, same completed keys, same page, and all URLs stored until then are seen |
| `DiscoveryResume.CompletedKeysSurvive` | apps/scraper/src/legalinfo/service.ts:171-268 | Keys that a session has completed, among them all before its position, stay completed: when it throws or stops anywhere short of its end, with its checkpoint intact, the next session with `resume` continues the job without them |
| `DiscoveryResume.RunStaysSame` | apps/scraper/src/legalinfo/service.ts:79-178 | Each step that does not end a session keeps its job, its completed keys and its place among the keys and pages left to do |
| `Discovery.EmptyPageCoversKey` | apps/scraper/src/legalinfo/index-crawler.ts:114-117 | Stopping at an empty page leaves no reachable page out |
| `Discovery.ColonFreeDistinguished` | apps/scraper/src/legalinfo/checkpoint.ts:16-18 | Checkpoint keys tell categories and filters apart when category ids have no colon |
| `Discovery.LatestIncomplete` | apps/scraper/src/legalinfo/service.ts:240-254 | Finds the last incomplete job if there is one: no later job is incomplete |
| `DiscoveryService.Crawl.RunDiscovery` | apps/scraper/src/legalinfo/service.ts:79-178 | The nested loops, run without interruption on top of what any earlier sessions left, are a run of the transitions; they are for the right job, attempt only what that job had left to do and keep its earlier results, complete the job, miss nothing and clear the checkpoint. Without a page limit, listings must end; with one, nothing is asked of them |
| `DiscoveryService.Crawl.CrawlCategoryPages` | apps/scraper/src/legalinfo/index-crawler.ts:52-118 | The page loop follows the transitions from the start page to the end of the key |
| `DiscoveryService.Crawl.OnPage` | apps/scraper/src/legalinfo/service.ts:114-156 | The page callback writes the checkpoint first and then follows the transitions through every document |
| `DiscoveryService.Crawl.StoreDiscovered` | apps/scraper/src/legalinfo/persist.ts:35-110 | One document: skipped when seen, else its document row and then its crawl result are written; either write may throw |
| `CitationLocator.ParseLocator` | packages/citation-normalizer/src/locator.ts:42-86 | The index loop computes what its specification says token by token |
| `CitationLocator.IgnorablesDoNotMatter` | packages/citation-normalizer/src/locator.ts:42-128 | Deleting every ignorable token changes no result |
| `CitationLocator.ReadAsSpelledExactly` | packages/citation-normalizer/src/locator.ts:42-148 | Groups of distinct numbers without dots, each bare, labelled before or labelled after, at existing levels and with any ignorable tokens in between, are read as the path they spell if and only if no bare group stands right before a label |
| `CitationLocator.NotationParses` | packages/citation-normalizer/src/locator.ts:42-148 | Without a bare group before a label, every such list is read as its path, also when numbers repeat or carry dots |
| `CitationLocator.UniformNotationParses` | packages/citation-normalizer/src/locator.ts:42-148 | A path of depth 1 to 4 written with labels before, with labels after, or bare with brackets is read as that path |
| `CitationLocator.DottedParses` | packages/citation-normalizer/src/locator.ts:130-143 | A dotted number of any length is read as its parts, those past the item joined into it |
| `CitationLocator.FieldsRecoverPath` | packages/citation-normalizer/src/locator.ts:130-143 | Joining the four fields with dots gives back the number, however long |
| `CitationLocator.BareBeforeLabelSwaps` | packages/citation-normalizer/src/locator.ts:64-70 | The shortest excluded notation: a bare number before a label takes that label, so the two numbers change places |
| `CitationLocator.ParseReads` | packages/citation-normalizer/src/locator.ts:42-128 | The loop agrees with a reader that looks at one or two tokens of the list without ignorable tokens |
| `InstrumentCatalog.CompileInstrumentCatalog` | packages/citation-normalizer/src/catalog.ts:15-49 | Succeeds if and only if codes are distinct; then the map holds each instrument under its code, and the list is the stable sort of the distinct non-empty lemmatized aliases, instrument by instrument |
| `InstrumentCatalog.CatalogMeaning` | packages/citation-normalizer/src/catalog.ts:15-49 | That list holds exactly the compiled aliases, each once, none behind one with fewer tokens or, at equal tokens, with shorter text, and aliases that tie in the order they were listed |
| `InstrumentCatalog.LongestAliasWins` | packages/citation-normalizer/src/catalog.ts:41-67 | The matched alias occurs; no alias of any instrument that occurs has more tokens, or as many and a longer text when joined with spaces, and one that ties with it was listed later |
| `InstrumentCatalog.MatchInstrument` | packages/citation-normalizer/src/catalog.ts:51-67 | Nothing if and only if no alias of the catalogue occurs; otherwise the first one in catalogue order that does, its leftmost occurrence cut out of the tokens |
| `InstrumentCatalog.IndexOfSequence` | packages/citation-normalizer/src/catalog.ts:69-86 | Finds the leftmost occurrence of a non-empty token list, if there is one |
| `BlobStore.CreatedBlobsStay` | packages/storage/src/local-blob-store.ts:17-50 | In every interleaving, with any failures, crashes and power loss: once a put that created its file has returned, every later read returns its bytes, until a power failure drops the directory entry of that file |
| `BlobStore.StaysExactlyWhenSynced` | packages/storage/src/local-blob-store.ts:86-105 | Non-empty bytes are readable whatever happens next, short of a dropped directory entry, if and only if the creator of their file has got past its sync, whether or not a put has returned |
| `BlobStore.DroppedEntryLosesBlob` | packages/storage/src/local-blob-store.ts:86-105 | A power failure that drops the directory entry, which is never synced, loses the bytes, synced or not |
| `BlobStore.ReturnedBlobsStay` | packages/storage/src/local-blob-store.ts:17-50 | Without failed writes or syncs and without power loss, the same holds for every put that has returned, also when it reused a file |
| `BlobStore.ReusedBlobMayBeLost` | packages/storage/src/local-blob-store.ts:86-105 | For every non-empty content there is an interleaving in which a put returns for a reused file and the file is lost, by the failed sync of its creator or by power loss before it |
| `BlobStore.CatalogRowsBacked` | packages/storage/src/raw-archive.ts:66-97 | In runs without failed writes, syncs and power loss every catalogue row has a blob of its size behind it |
| `BlobStore.BlockedExactly` | packages/storage/src/local-blob-store.ts:86-120 | No put of some bytes that begins later can return, whatever happens short of a dropped directory entry, if and only if their file is there unsynced, shorter than the bytes and without a writer |
| `BlobStore.DroppedEntryUnblocks` | packages/storage/src/local-blob-store.ts:86-120 | A power failure that drops the entry lets the next put of the bytes return |
| `BlobStore.CrashLeavesStuck` | packages/storage/src/local-blob-store.ts:86-105 | A process that dies in the middle of a write leaves a file that is shorter than its content |
| `BlobStore.StuckForever` | packages/storage/src/local-blob-store.ts:107-120 | From then on, until a power failure drops the entry, no put of that content returns, whatever happens |
| `BlobStore.RunKeepsInv` | packages/storage/src/local-blob-store.ts:86-105 | In every interleaving a file has at most one writer, holds exactly what it has written so far, and is intact once synced |
| `RateLimiting.NeverTooMany` | src/infrastructure/http/rate-limiter.ts:10-25 | In every interleaving the counter equals the number of admitted callers and never exceeds the limit |
| `RateLimiting.SpacingExactlyWhenSerial` | src/infrastructure/http/rate-limiter.ts:10-25 | Operation starts are always a full interval apart if and only if one caller is admitted at a time or the interval is zero |
| `RateLimiting.OneAtATimeSpaced` | src/infrastructure/http/rate-limiter.ts:15-20 | With one place, every start lies a full interval before the next one allowed, and no sleeper wakes before it |
| `RateLimiting.TwoStartTogether` | src/infrastructure/http/rate-limiter.ts:15-20 | With two places there is a run in which two callers that slept until the same moment start together |
| `LegacyLocators.AssignSourceLocators` | src/domain/services/legacy-article-locator.ts:55-93 | Every article gets the locator that its group and place determine; a base is reported, once, if and only if several articles share it, with their ids in order |
| `LegacyLocators.AssignedReads` | src/domain/services/legacy-article-locator.ts:55-93 | An article keeps the plain locator made of its number, or else of its place, if and only if no other that shows the same number comes earlier by order and id; every later one adds its own id behind the marker |
| `LegacyLocators.OrderIndependent` | src/domain/services/legacy-article-locator.ts:55-64 | The order of the input plays no part: lists with the same articles get the same locators |
| `LegacyLocators.DistinctExactly` | src/domain/services/legacy-article-locator.ts:79-90 | With unique ids that are free of the marker, distinct articles get distinct locators if and only if no article's base is the suffixed locator of an article that is not first of its base |
| `LegacyLocators.LocatorsInjective` | src/domain/services/legacy-article-locator.ts:79-90 | In particular they do when no base contains the marker |
| `LegacyLocators.MarkerInNumberCollides` | src/domain/services/legacy-article-locator.ts:79-90 | A number that contains the marker can take another article's locator |
| `LegacyLocators.LaterAdditionsKeepLocators` | src/domain/services/legacy-article-locator.ts:55-93 | Articles that come later, by order and id, change no earlier assignment |
| `LegacyLocators.SortSorts` | src/domain/services/legacy-article-locator.ts:58-61 | The sort by order and id is a permutation in strict order when ids are unique |
| `Backfill.SkipFiresWhenIndexed` | scripts/backfill-citation-index.ts:178-184 | Without stray entries, the equality of counts fires exactly for fully indexed versions |
| `Backfill.SkipExact` | scripts/backfill-citation-index.ts:178-184 | When the counts are equal, the version is fully indexed if and only if no entry belongs to anything but its nodes |
| `Backfill.Job.Run` | scripts/backfill-citation-index.ts:170-215 | Every entry that is new or changed is the one specified for a node of one of the versions, and none is removed; no stray entry is added or removed; a committed run without errors leaves each version with its earlier entries and, unless it was passed by, one for each of its nodes, so fully indexed if and only if it was not hidden; a run touches nothing if and only if it passes every version by; a dry run writes nothing |
| `Backfill.SecondRunTouchesNothing` | scripts/backfill-citation-index.ts:170-215 | After a committed run without errors, the next run passes every version by, and so touches nothing, if and only if each version was passed by in the first run or had no stray entry |
| `Backfill.StrayHidesNode` | scripts/backfill-citation-index.ts:178-184 | A table with one stray entry hides a version of one node |
| `Backfill.HiddenMeansStray` | scripts/backfill-citation-index.ts:178-184 | A version is hidden if and only if its counts match and some entry under it belongs to none of its nodes |
| `Backfill.Job.IndexVersion` | scripts/backfill-citation-index.ts:186-206 | Only entries of the version's own nodes are written, each as specified; an upsert that throws leaves the earlier ones in place; without a throw every node has its entry |
| `Backfill.WritesWhatPublishWrites` | scripts/backfill-citation-index.ts:128-144 | The entry written for a node is the citation that publishing it would have written if and only if the law id taken from the URL, or else the document number, is the one the publish was asked for |

## Left out

- Pattern matching, HTML cleanup (including the balanced-div slice), title and date extraction, and Unicode folding: lines and tokens are taken as classified.
- Word-form article headings drop their bis number in the source; nothing is claimed about that number.
- The expectations about single known laws (`src/application/ingest/publication-gate.ts:115-226`): a table of literal counts and locators, taken as a function that returns the codes of those not met.
- The pattern for page chrome: taken as a test on trimmed texts.
- SHA-256 and UUIDs: replaced by the assumptions above.
- Audit logs, parse reviews and ingest jobs: written beside the modelled tables and read by none of the modelled decisions. A review leaves at most a placeholder document, which is modelled.
- Document fields other than URL, title and status: copied through unchanged.
- SQL ranking (full text and trigram) and row mapping: the candidate list is an input that satisfies the status filter.
- Progress counters of the crawl: they are restored with loss after a resume (`apps/scraper/src/legalinfo/service.ts:270-274`), so nothing is claimed about them.
- Soft deletion of crawled documents and the import log: no modelled step sets or reads them.
- Network errors while a page is fetched: they end the session by the same transition as any other throw.
- Titles, MIME types and attachment records of the raw archive, and the S3 and Azure stores.
- The byte store under `src/infrastructure/archive`: it does not check an existing file, so the blob theorems do not apply to it.
- Catalogue rows in the blob model are written by puts only, one process step at a time; deletion is not part of this model.
- InstrumentCatalog.CompileAliases: tells aliases apart by their token lists, where the source joins them with spaces; tokens hold no spaces.
- LegacyLocators.Less: compares characters, where the source compares UTF-16 code units; ids are ASCII.
- DiscoveryService.Crawl.RunDiscovery: when no page limit is set, requires some page past which listings are empty, since the source loops forever otherwise; the theorems about interrupted sessions do not require it.
- CitationQuery.LatinHints: models the phrase parser on texts without Cyrillic letters and spaces, which all locators are; other phrases are a parameter.
- IngestStore.CorpusStore.Publish: requires that the generated document id is not in use.
