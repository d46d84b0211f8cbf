# Meteor metadata extraction, modelled in Dafny

Meteor, from the National Library of Norway, reads a report (a PDF file or a directory of ALTO
XML pages) and proposes its bibliographic metadata: title, authors, publisher, year, ISBN and
ISSN, language and document type. It works in two stages. Finders scan the first and last
pages, the PDF's own metadata, an "information page" laid out as a table of labels and values,
copyright lines and a report prefix. Each finding becomes a *candidate*, tagged with where it was
found. An arbitration step then picks one value per field by fixed, order-aware rules. Around
this core sit the resource tables of labels and stop words, an n-gram language guesser after
Cavnar and Trenkle, and the script that builds the publisher registry from MARC authority
records.

This project models that core in Dafny and proves what each part promises. There is one module
per source file, plus shared modules for Python's strings, dicts and list comprehensions (Strings,
Dicts, Lists), stable sorting (Sorting) and order-preserving de-duplication (Unique).

- **Imperative code** keeps its form. Objects that are updated in place are classes with
  `modifies` frames: the candidate store, the finder, the document and its page cache, the
  information page and its flag bits, the ALTO word blocks merged in place, the resource loader,
  the `InitFiles` singleton and the classifier. Loops are `while` loops, and each method is
  proved against a specification function.
- **Pure code** becomes functions with lemmas.
- **Python exceptions** (`KeyError`, `ValueError`, `IndexError`, `AttributeError`, `TypeError`)
  are error values of a `Result`, so every error path stays visible.
- **External libraries** are parameters of the model: the PDF and XML parsers, the JSON files,
  the date parser, the language detector and the registry database.

Modules and the source files they follow:

| module | source |
|---|---|
| Candidates | metadata_extract/candidate.py |
| Arbitration (class Metadata) | metadata_extract/metadata.py |
| Text | metadata_extract/text.py |
| AuthorNames | metadata_extract/author_name.py |
| Pages (classes TextBlock, Page) | metadata_extract/page.py |
| InfoPages (class InfoPage) | metadata_extract/infopage.py |
| AltoUtils (classes AltoBlock, AltoFile) | metadata_extract/alto_utils.py |
| MeteorDocuments (classes PdfDoc, MeteorDocument) | metadata_extract/meteor_document.py |
| FinderSpecs, Finders (class Finder) | metadata_extract/finder.py |
| ResourceTables, Resources (class ResourceLoader) | metadata_extract/resource_loader.py |
| InitFiles (classes Tables, Singleton) | metadata_extract/init_files.py |
| TextCat (class Classifier) | language/pytextcat.py |
| LangUtil | language/util.py |
| CreateDb | registry/createdb.py |

## Model

| member | source | states |
|---|---|---|
| Candidates.NewCandidate | metadata_extract/candidate.py:53-60 | a new candidate holds the given value, origin, page and context, and no registry entries |
| Candidates.ToDict | metadata_extract/candidate.py:62-81 | `origin.type` is the origin's name; `pageNumber` appears exactly when the page is given and non-zero; a registry-backed string or integer reports the first entry's name and id and the text found; without entries the value itself; an author its first and last name and no value |
| Arbitration.Added | metadata_extract/metadata.py:47-50 | the candidate goes last in the field's list, which is created when absent; every other field is unchanged |
| Arbitration.Metadata.AddCandidate | metadata_extract/metadata.py:47-50 | the stored candidates become `Added(old candidates, field, c)`; the results are untouched |
| Arbitration.HasPublisher | metadata_extract/metadata.py:52-55 | true exactly when some publisher candidate's value is the name |
| Arbitration.Metadata.HasPublisherFromInfopage | metadata_extract/metadata.py:57-63 | true exactly when some publisher candidate has origin INFO_PAGE |
| Arbitration.BestYearChoice | metadata_extract/metadata.py:66-79 | the first COPYRIGHT candidate, else the first PDFINFO one, else the first candidate, since the reverse sort is stable |
| Arbitration.FirstTitle | metadata_extract/metadata.py:105-107 | the first title of an origin that is a string with letters, or none when there is none |
| Arbitration.TitleChoice | metadata_extract/metadata.py:101-120 | a PDFINFO title with letters, else FRONT_PAGE, else LLM, each the first of its origin; never an INFO_PAGE title; none exactly when no origin has one |
| Arbitration.PublisherChoice | metadata_extract/metadata.py:122-129 | the first registry-backed publisher, else the first publisher |
| Arbitration.IsxnTableKeys | metadata_extract/metadata.py:89-92 | the value table holds exactly the values of the candidates |
| Arbitration.IsxnWinner | metadata_extract/metadata.py:86-99 | none exactly when there are no candidates; otherwise the first candidate of a value of maximal score, where each value is scored by its first candidate and ties go to the value seen first |
| Arbitration.BuildIsxnTable | metadata_extract/metadata.py:89-92 | the loop builds `IsxnTable`: each new value scored by the context of its first candidate |
| Arbitration.PickIsxn | metadata_extract/metadata.py:95-99 | the nested loop returns the first candidate of the first value in the sorted order |
| Arbitration.FindValue | metadata_extract/metadata.py:96-98 | the inner loop finds the first candidate holding the value |
| Arbitration.Metadata.ChooseIsxn | metadata_extract/metadata.py:86-99 | `choose_isxn` computes `IsxnResult` on the stored candidates |
| Arbitration.AnySameNameFound | metadata_extract/metadata.py:142-143 | with name keys on both sides, `any(...)` tests whether the entry's (firstname, lastname) pair is already kept |
| Arbitration.AuthorsFoldDedup | metadata_extract/metadata.py:136-146 | when every entry is a person, the first entry of each name pair is kept, in input order, and every pair is covered |
| Arbitration.AuthorsFoldHead | metadata_extract/metadata.py:140-145 | the first author entry is always kept first |
| Arbitration.AuthorsFoldError | metadata_extract/metadata.py:142 | KeyError exactly when there are at least two author entries and one has no name keys |
| Arbitration.Metadata.ChooseAuthors | metadata_extract/metadata.py:136-146 | the loop computes `AuthorsChoice` on the stored candidates |
| Arbitration.Metadata.ChooseBest | metadata_extract/metadata.py:148-156 | candidates unchanged; results become `BestResults`; it fails exactly when `choose_authors` raises |
| Arbitration.ChooseBestTwice | metadata_extract/metadata.py:148-156 | when `choose_authors` succeeds the results depend on the candidates alone, so a second call writes the same results |
| Arbitration.Metadata.constructor | metadata_extract/metadata.py:43-45 | no candidates and the empty results of `new_results` |
| Text.ValueAndContext.constructor | metadata_extract/text.py:12-14 | the value and context as given |
| Text.ValueAndContext.AppendToContext | metadata_extract/text.py:16-17 | the context becomes the old context, or "" when there is none, followed by the extra text; the value is unchanged |
| Text.SubstituteNonAlphanumericLower | metadata_extract/text.py:166-167 | lower-casing before or after the `\W+` normalisation gives the same text |
| Text.FindInPages | metadata_extract/text.py:108-118 | the loop over pages 1..min(len(pages), max_pages) with early return computes `PageSearch` |
| Text.PageSearchFound | metadata_extract/text.py:114-117 | a page found lies in the searched range and holds the title as a run of whole tokens |
| Text.PageSearchSkipped | metadata_extract/text.py:114-118 | every page before the one found, and every page in range when 0 is returned, exists and lacks the title |
| Text.PageSearchKeyError | metadata_extract/text.py:115 | KeyError only when a page number in range is missing, and always when all present pages fail |
| Text.TokenRunOccurs | metadata_extract/text.py:113-116 | a run of tokens bounded by spaces or the ends is found when both are wrapped in spaces |
| Text.TitleOnPageByTokens | metadata_extract/text.py:113-116 | a title whose normalised tokens form a space-bounded run of the page's is found |
| Text.TokenRunWrapped | metadata_extract/text.py:113-116 | a space-wrapped text contains another space-wrapped text exactly when the second stands in the first bounded by spaces or the ends |
| Text.TitleOnPageTokens | metadata_extract/text.py:113-116 | a title is found on a page exactly when its normalised text is a space-bounded run of the page's normalised text |
| Text.IssnSearch | metadata_extract/text.py:25 | the leftmost `\D(\d{4}[–-][\dX]{4})\D` match: four digits, a dash, four digits or X, between non-digits; none when no position matches |
| Text.IsbnSearch | metadata_extract/text.py:26 | the `\D([\d–-]{13,17})\D` capture is 13 to 17 digits and dashes |
| Text.IsbnSearchSpec | metadata_extract/text.py:26 | none exactly when no position from the start matches; otherwise the capture of the leftmost match, taken as long as the match allows (greedy, up to 17 characters) |
| Text.IsxnOf | metadata_extract/text.py:121-125 | a value exactly when the pattern matches `"." + text + "."`; the capture with every '–' made '-'; the context is the lower-cased text |
| Text.IssnShape | metadata_extract/text.py:25-125 | a found ISSN is `dddd-dddd` with X allowed in the last four places |
| Text.IsbnShape | metadata_extract/text.py:26-125 | a found ISBN is 13 to 17 digits and '-' |
| Text.FindIsxn | metadata_extract/text.py:121-125 | null exactly when nothing matches; else a new object holding that value and context |
| Text.LeadingWord | metadata_extract/text.py:40 | the `^(\w+)` group: the longest prefix of word characters |
| Text.FindReportPrefix | metadata_extract/text.py:128-134 | a prefix found is a non-empty upper-case word at the start of the text |
| Text.ReportPrefixFound | metadata_extract/text.py:40-134 | an upper-case first word, a separator and a report label give that word |
| Text.ReportPrefixSingleWord | metadata_extract/text.py:40 | a text of one word has no prefix |
| Text.ReportPrefixHyphen | metadata_extract/text.py:128-134 | 'NAV-report' gives 'NAV' |
| Text.ReportPrefixSpaced | metadata_extract/text.py:128-134 | the text 'NIBIO RAPPORT', a vertical bar, 'VOL. 3', a bar and 'NR. 45' gives 'NIBIO' |
| Text.ReportPrefixAbsent | metadata_extract/text.py:128-134 | 'FHI', 'ÅRSRAPPORT' and 'This FHI report' give none |
| Text.FindDocType | metadata_extract/text.py:137-147 | a matched report type maps through the doc-type mapping, else lower-cased; without one, "nou" exactly when the word NOU occurs; else none |
| Text.HasNoLetters | metadata_extract/text.py:28-151 | true exactly when the text is non-empty and each character is a digit or not a word character |
| Text.NoLettersExamples | metadata_extract/text.py:150-151 | '2020/02' has no letters, '2020/02 Report from' has |
| AuthorNames.CloseAt | metadata_extract/text.py:32 | the first ')' of the text when no line break comes before it, else none: the lazy `.*?\)` |
| AuthorNames.ParenMatches | metadata_extract/author_name.py:47 | every match of the parenthesis pattern opens with '(' and closes with ')' |
| AuthorNames.RemoveParenthesis | metadata_extract/author_name.py:45-51 | the loop replacing each match by nothing computes `WithoutParenthesis` |
| AuthorNames.ParenMatchesRender | metadata_extract/author_name.py:47 | in a text cut into plain stretches and one-line remarks, `findall` finds exactly the remarks in order |
| AuthorNames.ReplaceRender | metadata_extract/author_name.py:50 | `str.replace` of one remark deletes every copy of it and nothing else |
| AuthorNames.DeleteAllRender | metadata_extract/author_name.py:48-50 | deleting matches that name every remark leaves exactly the plain text |
| AuthorNames.WithoutParenthesisPlain | metadata_extract/author_name.py:45-51 | `remove_parenthesis` keeps exactly the text outside the parentheses, in place |
| AuthorNames.WithoutParenthesisNone | metadata_extract/author_name.py:48 | a text without '(' comes back unchanged |
| AuthorNames.WithoutTwoRemarks | metadata_extract/author_name.py:45-51 | two remarks, each after plain text, are both removed |
| AuthorNames.RemoveParenthesisExample | metadata_extract/author_name.py:45-51 | 'Alice (forfatter), Bob (utgiver)' becomes 'Alice , Bob ' |
| AuthorNames.SplitAuthorString | metadata_extract/author_name.py:63-66 | one stripped piece per piece the binding-word split gives |
| AuthorNames.SplitAuthorStringTrimmed | metadata_extract/author_name.py:66 | no piece starts or ends with whitespace |
| AuthorNames.RemoveMultiCapitalLetter | metadata_extract/author_name.py:33-36 | keeps exactly the names without a whole-word run of two or more ASCII capitals |
| AuthorNames.NoAdjacentCapitals | metadata_extract/text.py:33 | a name without two adjacent ASCII capitals has no such run |
| AuthorNames.CapitalWordFound | metadata_extract/text.py:33 | an all-capital word of length two or more between non-word characters is found |
| AuthorNames.RemoveDuplicateNames | metadata_extract/author_name.py:69-73 | the same names, each once |
| AuthorNames.RemoveDuplicateNamesDistinct | metadata_extract/author_name.py:69-73 | a list without repeats comes back as it is |
| AuthorNames.GetAuthorNamesSpec | metadata_extract/author_name.py:19-30 | None exactly when the name pattern finds nothing outside parentheses; otherwise trimmed names without capital runs, without repeats, exactly the split pieces that pass |
| AuthorNames.GetAuthorNamesOf | metadata_extract/author_name.py:19-30 | names found, split back as found, clean and distinct, come out as found |
| AuthorNames.GetAuthorNamesFour | metadata_extract/author_name.py:19-30 | four clean names with distinct initials, split at commas and binding words, come out as the four names |
| AuthorNames.GetAuthorNamesExample | metadata_extract/author_name.py:19-30 | the 'Anne Mette Ødegård, Rolf K. Andersen, Bjorn Dapi og Cecilie Aagestad' case gives the four names |
| AuthorNames.ExampleNamesClean | metadata_extract/author_name.py:33-36 | the four example names are trimmed, free of capital runs and of '(' |
| AuthorNames.RemoveNonAuthorName | metadata_extract/author_name.py:39-42 | None exactly when the text holds a non-author keyword, else the text itself |
| AuthorNames.ProbableWhenWholeMatch | metadata_extract/author_name.py:76-86 | a cleaned block the name pattern matches as a whole is a probable name block |
| AuthorNames.ProbableWithoutMatch | metadata_extract/author_name.py:76-86 | with no match, a block is probable only when cleaning leaves nothing |
| AuthorNames.ProbableIgnoresRemarks | metadata_extract/author_name.py:81 | remarks in parentheses do not change the verdict |
| AuthorNames.NameExistsInTitleAt | metadata_extract/author_name.py:89-92 | the name is found wherever its normalised lower-case form stands in the title's, even inside a word |
| AuthorNames.NameExistsInOwnTitle | metadata_extract/author_name.py:89-92 | a name is found in itself |
| AuthorNames.NameExistsInTitleCaseBlind | metadata_extract/author_name.py:90-91 | lower-casing either side first changes nothing |
| AuthorNames.CreateAuthorDict | metadata_extract/author_name.py:95-98 | IndexError exactly when the name has no word; else a non-empty last name without spaces, and first name plus space plus last name is the name's words joined by single spaces |
| AuthorNames.CreateAuthorDictOfWords | metadata_extract/author_name.py:95-98 | words joined by spaces split back into all but the last word, and the last |
| AuthorNames.CreateAuthorDictBlank | metadata_extract/author_name.py:97 | a blank name raises IndexError |
| AuthorNames.CreateAuthorDictThreeWordExample | metadata_extract/author_name.py:95-98 | 'Anne Mette Ødegård' gives first name 'Anne Mette' |
| AuthorNames.CreateAuthorDictInitialExample | metadata_extract/author_name.py:95-98 | 'Rolf K. Andersen' gives 'Rolf K.' and 'Andersen' |
| AuthorNames.CreateAuthorDictTwoWordExample | metadata_extract/author_name.py:95-98 | 'Bjørn Dapi' gives 'Bjørn' and 'Dapi' |
| AuthorNames.IsAllCapsSpaced | metadata_extract/author_name.py:101-107 | the scan with early exit is true exactly when every word is a single upper-case letter |
| AuthorNames.AllCapsSpacedLetters | metadata_extract/author_name.py:101-107 | single capitals joined by spaces qualify |
| AuthorNames.AllCapsSpacedLongWord | metadata_extract/author_name.py:105 | a first word longer than one character disqualifies |
| AuthorNames.AllCapsSpacedExamples | metadata_extract/author_name.py:101-107 | 'R A P P O R T' qualifies, 'John Doe' does not |
| AuthorNames.ConcatTextBlocks | metadata_extract/author_name.py:10-16 | the loop gives ", " before each text of the blocks passing both tests, in page order |
| AuthorNames.PrefixedJoin | metadata_extract/author_name.py:15 | that is ", " followed by the kept texts joined by ", ", or "" when none is kept |
| AuthorNames.KeptTextsEmpty | metadata_extract/author_name.py:13-15 | nothing is kept exactly when no block passes |
| Pages.TextBlock.constructor | metadata_extract/page.py:24-29 | a block keeps its span's text with no-break spaces made spaces and outer whitespace stripped, its font, size and box, and clear flags |
| Pages.BlankAllSpace | metadata_extract/page.py:55 | a span text is skipped exactly when every character of it is whitespace |
| Pages.BlankIsStripEmpty | metadata_extract/page.py:55 | the skip test is the same as the stripped text being empty |
| Pages.KeptBlockText | metadata_extract/page.py:25-55 | a span that is not skipped never gives a block with empty text |
| Pages.AppendBlock | metadata_extract/page.py:57 | appending a block built from a span extends the built blocks by one fresh block |
| Pages.SpanStep | metadata_extract/page.py:54-57 | one turn of the span loop appends a block exactly when the span is kept |
| Pages.SpanBlocks | metadata_extract/page.py:53-57 | the blocks of one line are those of its kept spans, fresh and in order |
| Pages.BuiltFromConcat | metadata_extract/page.py:50-57 | blocks built for two runs of spans, placed one after the other, are the blocks built for the joined runs |
| Pages.LineBlocks | metadata_extract/page.py:52-57 | the blocks of the lines of one block are those of their kept spans, in order |
| Pages.BlockBlocks | metadata_extract/page.py:51-57 | a text block without lines gives no blocks |
| Pages.PageBlocks | metadata_extract/page.py:50-57 | the blocks of the page are those of all its kept spans, block, line and span in order |
| Pages.Page.constructor | metadata_extract/page.py:46-57 | one fresh, distinct block per kept span of the page, in order, each with non-empty text and clear flags |
| Pages.Page.LineAndColumn | metadata_extract/page.py:59-85 | the line holds blocks with nearly the same top further right, the column blocks with nearly the same left edge further down; the block itself is in neither |
| Pages.Page.LineAndColumnMembers | metadata_extract/page.py:75-83 | a block of the page is on the line (column) exactly when it passes the line (column) test, with letters if they are required |
| Pages.Page.FindNeighbour | metadata_extract/page.py:87-106 | the transform of the first block on the line if it yields a value, else that of the first block of the column, else none |
| Pages.Tagged | metadata_extract/page.py:116-126 | at most one value per block |
| Pages.TaggedFrom | metadata_extract/page.py:116-126 | every value found comes from one of the blocks, with that block's lower-cased text appended to its context |
| Pages.TaggedSnoc | metadata_extract/page.py:116-126 | the values for one more block follow those found before |
| Pages.CarrySnoc | metadata_extract/page.py:123-126 | appending a non-null value for a block extends the values carried |
| Pages.Page.IsxnValues | metadata_extract/page.py:114-127 | at most one identifier value per block |
| Pages.Page.BlockIsxn | metadata_extract/page.py:117-125 | a block's value is read from its own text, else from its neighbour, and is fresh when found |
| Pages.Page.AppendIsxn | metadata_extract/page.py:116-126 | one turn of the loop appends the value found for the next block, if any |
| Pages.Page.FindIsxnValues | metadata_extract/page.py:108-127 | one value per block mentioning the identifier where one is found, in page order, its context extended by the block's lower-cased text |
| Pages.Page.PublisherBlockIndex | metadata_extract/page.py:129-135 | the first block whose lower-cased text starts with the publisher label: no earlier block does; none when no block does |
| Pages.Page.FindPublisherBlock | metadata_extract/page.py:129-135 | the loop returns the block at the first label position, or null |
| Pages.Page.FindPublisher | metadata_extract/page.py:137-143 | the publisher the label block's neighbour gives |
| Pages.Page.PublisherNeighbour | metadata_extract/page.py:137-143 | the publisher is the text of the first block on the label's line if there is one, else of the first block of its column, else none |
| InfoPages.KeywordScore | metadata_extract/infopage.py:41-44 | a page's score is at most the number of keywords |
| InfoPages.KeywordScorePositive | metadata_extract/infopage.py:41-44 | a page scores above zero exactly when some keyword occurs in its lower-cased text |
| InfoPages.PageScores | metadata_extract/infopage.py:39-45 | one score per page, keyed by its page number, in page order |
| InfoPages.MaxScore | metadata_extract/infopage.py:46 | the largest score: no page scores more, and some page scores it |
| InfoPages.FindPageNumber | metadata_extract/infopage.py:33-49 | the scoring loops compute the page number `find_page_number` returns |
| InfoPages.TopPageOfBest | metadata_extract/infopage.py:48-49 | the first page of the stable sort by falling score has the highest score, and every earlier page a lower one |
| InfoPages.PageNumberSpec | metadata_extract/infopage.py:33-49 | an error exactly when there are no pages; 0 when no page holds a keyword; else the number of the earliest page with the most keywords |
| InfoPages.BlockFlagBits | metadata_extract/infopage.py:28-73 | each flag bit is set exactly when its test holds: upper case, ends with a colon, holds a keyword, is in the keyword font |
| InfoPages.KeywordAppearsIn | metadata_extract/infopage.py:51-56 | true exactly when some keyword occurs in the lower-cased text |
| InfoPages.Snapshot | metadata_extract/infopage.py:145-177 | the text, font and flags of each block, in page order |
| InfoPages.Fonts | metadata_extract/infopage.py:147 | each font of the blocks once, and nothing else |
| InfoPages.FontCount | metadata_extract/infopage.py:150 | the number of blocks in a font is zero exactly when no block uses it |
| InfoPages.FontKeywordCount | metadata_extract/infopage.py:153 | the keyword blocks of a font are among its blocks, and there are none when no block has the keyword flag |
| InfoPages.Proportions | metadata_extract/infopage.py:151-154 | one share per font, in font order |
| InfoPages.MaxShare | metadata_extract/infopage.py:155 | the largest share: no font has more, and some font has it |
| InfoPages.GroupByFont | metadata_extract/infopage.py:145-158 | the method computes the font `group_by_font` chooses from the blocks' current state |
| InfoPages.ProportionsOf | metadata_extract/infopage.py:151-154 | the loop fills the shares of the fonts, in font order |
| InfoPages.GroupByFontErr | metadata_extract/infopage.py:155 | `max` raises exactly when the page has no blocks |
| InfoPages.DivAtLeastHalf | metadata_extract/infopage.py:155 | a quotient is at least one half exactly when twice the numerator is at least the denominator |
| InfoPages.DivAboveHalf | metadata_extract/infopage.py:170-177 | a quotient is above one half exactly when twice the numerator exceeds the denominator |
| InfoPages.ShareAtLeastHalf | metadata_extract/infopage.py:154-155 | a font's share is at least one half exactly when twice its keyword count is at least its block count |
| InfoPages.GroupByFontNone | metadata_extract/infopage.py:155-156 | no font is chosen exactly when, in every font, fewer than half of the blocks carry the keyword flag |
| InfoPages.GroupByFontBest | metadata_extract/infopage.py:157-158 | a chosen font is the first font with the highest share, and that share is at least one half |
| InfoPages.GroupByFontUnflagged | metadata_extract/infopage.py:61-73 | called before any flag is set, `group_by_font` chooses no font |
| InfoPages.ColonCounts | metadata_extract/infopage.py:166-168 | the keyword blocks ending with a colon are among the blocks ending with a colon |
| InfoPages.UpperCounts | metadata_extract/infopage.py:172-175 | the keyword blocks in upper case are among the upper-case blocks without ISBN or ISSN |
| InfoPages.MajorityRatio | metadata_extract/infopage.py:167-177 | the integer majority test agrees with `n > 0 and k / n > 0.5` |
| InfoPages.MinBy | metadata_extract/infopage.py:87-90 | `min` returns one of the blocks |
| InfoPages.NeighbourCandidates | metadata_extract/infopage.py:86-91 | one candidate when the line has blocks, one more when the column has |
| InfoPages.InfoPage.Penalty | metadata_extract/infopage.py:101-108 | a candidate's penalty is at most 3 |
| InfoPages.InfoPage.constructor | metadata_extract/infopage.py:58-75 | every block gets the flags of its own tests, and the two label traits are the majority tests over the flagged blocks |
| InfoPages.InfoPage.CheckAttributes | metadata_extract/infopage.py:160-177 | a trait is used for labels when more than half of the blocks showing it carry the keyword flag; a trait no block shows keeps its value |
| InfoPages.InfoPage.Penalties | metadata_extract/infopage.py:101-108 | one penalty per candidate, in candidate order |
| InfoPages.InfoPage.PenaltyOf | metadata_extract/infopage.py:103-108 | the points counted up are the candidate's penalty |
| InfoPages.InfoPage.GetValueNeighbour | metadata_extract/infopage.py:77-113 | the method computes the value neighbour as `get_value_neighbour` does |
| InfoPages.InfoPage.ValueNeighbourSpec | metadata_extract/infopage.py:77-113 | none exactly when neither the line nor the column has a block with letters; with one side only, its nearest block; with both, the column block only when it has the smaller penalty |
| InfoPages.InfoPage.TitleBlockIndex | metadata_extract/infopage.py:116-120 | the first block mentioning "title" or "tittel": no earlier block does; none when no block does |
| InfoPages.InfoPage.FindTitle | metadata_extract/infopage.py:115-124 | the value next to the first block mentioning a title, or none |
| InfoPages.InfoPage.FindPublisher | metadata_extract/infopage.py:126-131 | the value next to the first publisher label, or none |
| InfoPages.InfoPage.AuthorBlockIndex | metadata_extract/infopage.py:134-138 | the first block starting with the author label: no earlier block does; none when no block does |
| InfoPages.InfoPage.Values | metadata_extract/infopage.py:115-143 | asking for the title, publisher and authors changes nothing and returns each as found |
| InfoPages.InfoPage.ValueNeighbourOfBlocks | metadata_extract/infopage.py:77-113 | the value neighbour depends only on the blocks' texts, fonts, boxes and flags and the two label traits: it is `NeighbourValue` of them |
| InfoPages.InfoPage.TitleOfBlocks | metadata_extract/infopage.py:115-124 | the title found is `TitleValue` of the flagged blocks and label traits |
| InfoPages.InfoPage.PublisherOfBlocks | metadata_extract/infopage.py:126-131 | the publisher found is `PublisherValue` of the flagged blocks and label traits |
| InfoPages.InfoPage.AuthorOfBlocks | metadata_extract/infopage.py:133-143 | the authors found are `AuthorValue` of the flagged blocks and label traits |
| InfoPages.PickOfSnapshot | metadata_extract/infopage.py:86-113 | choosing on the flagged blocks is choosing on the blocks: the nearest line block, the nearest column block, or of the two the column one only when its penalty is strictly lower |
| InfoPages.InfoPage.FindAuthor | metadata_extract/infopage.py:133-143 | the loop returns the names next to the author label |
| InfoPages.InfoPage.AuthorOfSpec | metadata_extract/infopage.py:133-143 | authors come only from a non-empty value next to an author label, and are its names: each once, trimmed and free of capital runs |
| InfoPages.FlagsOf | metadata_extract/infopage.py:66-73 | the bits the four tests set |
| InfoPages.SetFlags | metadata_extract/infopage.py:65-73 | the block's flags become its old flags ORed with its test bits |
| InfoPages.LabelTraits | metadata_extract/infopage.py:166-177 | each trait is the majority test when some block shows it, else keeps its previous value |
| InfoPages.SetAllFlags | metadata_extract/infopage.py:65-73 | every block, unflagged before, ends with exactly its test bits |
| InfoPages.MakeInfoPage | metadata_extract/infopage.py:58-75 | a page without text blocks raises ValueError; otherwise its blocks, seen as text, font, box and flags, are `InfoBlocks`: one per kept span, flagged by its tests; the two label traits are the majority tests over those blocks; no keyword font |
| InfoPages.InfoBlocks | metadata_extract/infopage.py:58-73 | one flagged block per kept span, in order, with the span's stripped text, font and box and the bits of its tests |
| AltoUtils.StylesOf | metadata_extract/alto_utils.py:36-48 | a table read without error holds `default` and the ID of every TextStyle |
| AltoUtils.GetStyles | metadata_extract/alto_utils.py:35-49 | the default style, then each TextStyle in document order; no Styles element, or an empty one, leaves the default alone |
| AltoUtils.StylesOfErr | metadata_extract/alto_utils.py:44-47 | one TextStyle without ID, FONTFAMILY or FONTSIZE makes the whole table a KeyError |
| AltoUtils.StylesOfLast | metadata_extract/alto_utils.py:43-48 | an ID maps to the font and size of the last TextStyle carrying it |
| AltoUtils.StylesOfDefault | metadata_extract/alto_utils.py:36-38 | `default` keeps the built-in style unless a TextStyle redefines it |
| AltoUtils.GetPosition | metadata_extract/alto_utils.py:96-109 | a box exactly when all four attributes are present and parse; `[HPOS, VPOS, HPOS+WIDTH, VPOS+HEIGHT]`; a missing HPOS raises ValueError naming it |
| AltoUtils.WordOf | metadata_extract/alto_utils.py:133-138 | a word exactly when CONTENT is present and the box can be made; its text is CONTENT |
| AltoUtils.LineWordsEach | metadata_extract/alto_utils.py:131-138 | a line's words are built exactly when every String's word is, and they are those words in order |
| AltoUtils.MergeWordSpec | metadata_extract/alto_utils.py:112-127 | `merge([], w) == [w]`; a word closer than 80 changes only the last block (same left edge, higher top, the word's right edge, lower bottom, texts joined by a space); any other word is appended |
| AltoUtils.GroupTexts | metadata_extract/alto_utils.py:139-140 | the grouped texts joined by spaces equal the words' texts joined by spaces; no groups exactly when no words; never more groups than words |
| AltoUtils.Merge | metadata_extract/alto_utils.py:112-127 | on word-block objects: the blocks' values become `MergeWord` of the old values, by updating the last block in place or by appending `word` |
| AltoUtils.GroupBlocks | metadata_extract/alto_utils.py:139 | `reduce(merge, word_elements, [])` leaves blocks whose values are the groups of the words |
| AltoUtils.SpanOf | metadata_extract/alto_utils.py:85-93 | text and box are the word's; the font is that of the style named by the first token of the word's STYLEREFS, or else the block's |
| AltoUtils.SpansOf | metadata_extract/alto_utils.py:80-81 | a line's spans are the spans of its word blocks, one each, in order |
| AltoUtils.LineWordsTexts | metadata_extract/alto_utils.py:133-135 | the words of a parsed line carry the CONTENT of its Strings |
| AltoUtils.AltoFile.ParseLine | metadata_extract/alto_utils.py:129-141 | the merged blocks and their texts joined by spaces, which equal the CONTENTs joined by spaces; between 1 and the number of words blocks when there are words, none when there are none |
| AltoUtils.AltoFile.WordElements | metadata_extract/alto_utils.py:130-138 | one new word block per String, or the first String's error |
| AltoUtils.AltoFile.LinesOfContents | metadata_extract/alto_utils.py:78-82 | the strings of a block's lines are the lines' contents |
| AltoUtils.AltoFile.BlocksOfContents | metadata_extract/alto_utils.py:75-82 | the lines' strings of all blocks are their contents in block then line order |
| AltoUtils.AltoFile.ElementSpans | metadata_extract/alto_utils.py:80-81 | the loop appending `block_to_span` computes `SpansOf` |
| AltoUtils.AltoFile.BlockLines | metadata_extract/alto_utils.py:77-82 | the loop over a block's lines computes `LinesOf` |
| AltoUtils.AltoFile.ParseBlocks | metadata_extract/alto_utils.py:72-83 | the spans of every line in order, and the lines' strings joined by newlines |
| AltoUtils.AltoFile.BlocksOfErr | metadata_extract/alto_utils.py:75-82 | an error in an earlier block is the file's error |
| AltoUtils.LineWordsErr | metadata_extract/alto_utils.py:132-138 | the first String that fails decides the line's error |
| AltoUtils.OpenAlto | metadata_extract/alto_utils.py:28-33 | `AltoFile(path)` succeeds exactly when the style table and every block read without error; the error is the style table's, else the first block's; on success the object holds the style table, the blocks, their spans and the full text |
| AltoUtils.AltoBlock.constructor | metadata_extract/alto_utils.py:134-138 | a word block holding the word's text, box and style reference |
| AltoUtils.AltoFile.constructor | metadata_extract/alto_utils.py:28-31 | the style table and the blocks as given; no spans and no text yet |
| MeteorDocuments.PdfDoc.constructor | metadata_extract/meteor_document.py:32-33 | an opened PDF holds its metadata and pages and is not closed |
| MeteorDocuments.PdfDoc.Close | metadata_extract/meteor_document.py:49 | closing a PDF leaves it closed |
| MeteorDocuments.Range | metadata_extract/meteor_document.py:57-62 | `range(lo, hi)`: the integers from `lo` below `hi`, in order |
| MeteorDocuments.PdfWindow | metadata_extract/meteor_document.py:56-63 | every page read is a page of the document |
| MeteorDocuments.PageItems | metadata_extract/meteor_document.py:57-63 | one item per page read |
| MeteorDocuments.PdfWindowShape | metadata_extract/meteor_document.py:56-63 | `min(page_count, start + end)` pages in increasing order: all of them, or those before `start` and those from `page_count - end` on |
| MeteorDocuments.PdfPagesAt | metadata_extract/meteor_document.py:56-63 | each item is a window page under its 1-based number, with that page's text |
| MeteorDocuments.PdfPagesWindow | metadata_extract/meteor_document.py:51-64 | the `pages` dict holds `min(page_count, start + end)` distinct 1-based page numbers: all, or those up to `start` and those after `page_count - end` |
| MeteorDocuments.PdfPagesKeys | metadata_extract/meteor_document.py:56-63 | a page number is a key exactly when it lies in the window |
| MeteorDocuments.PageItemsSnoc | metadata_extract/meteor_document.py:57-63 | one more page read appends its item |
| MeteorDocuments.PageItemsBelow | metadata_extract/meteor_document.py:60-63 | the next page's number is not yet a key |
| MeteorDocuments.PageItemsStep | metadata_extract/meteor_document.py:58-63 | writing the next page after pages with smaller numbers appends it |
| MeteorDocuments.PutPages | metadata_extract/meteor_document.py:57-63 | a page loop appends the pages of its range, in order |
| MeteorDocuments.ReadPdfPages | metadata_extract/meteor_document.py:51-64 | the loops build the `pages` dict of the window |
| MeteorDocuments.FilesToRead | metadata_extract/meteor_document.py:73-78 | `min(len(alto_files), start + end)` files, as intended |
| MeteorDocuments.FilesToReadAsWrittenNoEnd | metadata_extract/meteor_document.py:77-78 | with `end == 0` the list as written holds the first `start` files and then every file again, more than the window |
| MeteorDocuments.FilesToReadAsWrittenAgrees | metadata_extract/meteor_document.py:73-78 | otherwise the list as written is the intended window |
| MeteorDocuments.FilesToReadWindow | metadata_extract/meteor_document.py:71-78 | the ALTO files read are those of the PDF window over the sorted files |
| MeteorDocuments.PageNumberOfDigits | metadata_extract/meteor_document.py:81 | a name whose part before its first dot ends in four digits is numbered by them |
| MeteorDocuments.ParseIntDigits | metadata_extract/meteor_document.py:81 | `int()` of digits alone is their value |
| MeteorDocuments.SplitWhereFirst | metadata_extract/meteor_document.py:81 | the first piece of a split at dots is the text before the first dot |
| MeteorDocuments.NumberedTextsStep | metadata_extract/meteor_document.py:80-83 | one more file read writes its text under its page number |
| MeteorDocuments.NumberedTextsLast | metadata_extract/meteor_document.py:80-83 | each page number holds the text of the last file read with it |
| MeteorDocuments.AltoTextsLast | metadata_extract/meteor_document.py:80-83 | each page number of `pages_txt` holds the full text of the last ALTO file read with it |
| MeteorDocuments.ReadEachSnoc | metadata_extract/meteor_document.py:80-84 | one more file read raises its error or writes its text and spans under its page number |
| MeteorDocuments.ReadEachErr | metadata_extract/meteor_document.py:80-84 | once a file raises, the files after it are not read |
| MeteorDocuments.ReadEachMeaning | metadata_extract/meteor_document.py:80-84 | the loop succeeds exactly when every file can be read |
| MeteorDocuments.ReadEachFirstError | metadata_extract/meteor_document.py:80-84 | the error raised is that of the first file that cannot be read |
| MeteorDocuments.ReadEachTexts | metadata_extract/meteor_document.py:80-84 | a successful loop's texts are the numbered texts, and its texts and spans have the same page numbers in the same order |
| MeteorDocuments.ReadEachLast | metadata_extract/meteor_document.py:80-84 | each page number holds the spans of the last file read with it |
| MeteorDocuments.ReadAltoMeaning | metadata_extract/meteor_document.py:80-84 | reading the ALTO files succeeds exactly when every file has a page number and opens; the error is the first failing file's |
| MeteorDocuments.ReadAltoTexts | metadata_extract/meteor_document.py:80-84 | a successful read's texts are `pages_txt` as `AltoTexts` gives it, with the spans under the same page numbers |
| MeteorDocuments.ReadAltoLast | metadata_extract/meteor_document.py:80-84 | each page number holds the spans of the last ALTO file read with it |
| MeteorDocuments.PagesBuiltPut | metadata_extract/meteor_document.py:84 | storing the page built from a file's spans under its number keeps every page object the page of its own spans |
| MeteorDocuments.ReadAltoFile | metadata_extract/meteor_document.py:81-84 | succeeds exactly when `AltoRead` does, with its error otherwise (ValueError for a name without a page number, else `AltoFile`'s); on success the file's number, its full text and a fresh page built from its spans |
| MeteorDocuments.PagesForPut | metadata_extract/meteor_document.py:83-84 | writing a page number into both dicts keeps their keys in step |
| MeteorDocuments.ReadAltoStep | metadata_extract/meteor_document.py:80-84 | one turn succeeds exactly when the file can be read, raising its error otherwise; it writes the file's text under its number and stores there the page built from the file's spans, every other page object staying the page of its own spans |
| MeteorDocuments.ReadAltoPages | metadata_extract/meteor_document.py:66-86 | succeeds exactly when every window file has a page number and opens, raising the first failing file's error; `pages_txt` is the window's texts by page number; `pages_objects` has the same keys and holds, for each number, a fresh page built from the spans of the last window file with that number |
| MeteorDocuments.MeteorDocument.constructor | metadata_extract/meteor_document.py:22-37 | the document holds the PDF information, the PDF, the pages and the page cache it is given |
| MeteorDocuments.MeteorDocument.GetPageObject | metadata_extract/meteor_document.py:88-94 | a cached page is returned unchanged; otherwise the page is built from the PDF and cached; without a PDF, or for a page it does not have, ValueError; no cached entry is lost |
| MeteorDocuments.MeteorDocument.Close | metadata_extract/meteor_document.py:47-49 | the PDF, when there is one, is closed |
| MeteorDocuments.MeteorDocument.Exit | metadata_extract/meteor_document.py:42-45 | leaving a `with` block closes the PDF |
| MeteorDocuments.Open | metadata_extract/meteor_document.py:22-37 | a file opens as a PDF with its metadata and window pages and an empty cache; a directory succeeds exactly when its ALTO window can be read, with no PDF, the window's texts and, for each page number, the page built from its last file's spans; any other path raises ValueError |
| FinderSpecs.SearchInRegistry | metadata_extract/finder.py:39-46 | no entries without a registry or when its search raises; else the registry's entries for the name |
| FinderSpecs.Registered | metadata_extract/finder.py:65-115 | a string candidate of the given origin and page, with the registry's entries for its value |
| FinderSpecs.AppendsTrans | metadata_extract/finder.py:256-274 | appending candidates of a kind twice is appending them once |
| FinderSpecs.RunPagesFail | metadata_extract/finder.py:50-146 | once a page's turn raises, the later pages are not looked at |
| FinderSpecs.RunPagesSame | metadata_extract/finder.py:88-96 | two page loops whose turns agree on the first pages agree there |
| FinderSpecs.RunPagesAppends | metadata_extract/finder.py:88-158 | a page loop whose every turn appends candidates of a kind appends only such candidates |
| FinderSpecs.SizedTexts | metadata_extract/finder.py:74-77 | the font size and text of each block, in page order |
| FinderSpecs.SizeGroupsAt | metadata_extract/finder.py:73-77 | a font size's entry holds exactly the texts in that size, in page order, and sizes without texts have none |
| FinderSpecs.SizeGroupsDistinct | metadata_extract/finder.py:73-77 | each font size is a key once |
| FinderSpecs.GroupOfSize | metadata_extract/finder.py:78 | every size that occurs is a group of the sorted dict |
| FinderSpecs.SortedGroup | metadata_extract/finder.py:78 | every group of the sorted dict holds the texts of its size |
| FinderSpecs.FrontTitleFound | metadata_extract/finder.py:79-84 | a title found is the cleaned text of some font size whose text has letters |
| FinderSpecs.FrontTitleLargest | metadata_extract/finder.py:78-84 | when some font size has letters, the title is the cleaned text of the largest such size |
| FinderSpecs.TitleFromPageAppends | metadata_extract/finder.py:69-84 | the step adds at most a front-page title |
| FinderSpecs.InfoValue | metadata_extract/finder.py:178-207 | the PDF-info value: TypeError without PDF info, KeyError without the key |
| FinderSpecs.FoundOnPageSpec | metadata_extract/finder.py:180-181 | a page found for a name is one of the first three, holds the name, and every earlier page is present and does not |
| FinderSpecs.TitleFromInfoSpec | metadata_extract/finder.py:175-184 | the step adds at most one title: the non-empty PDF-info title, on the first page among the first three that holds it |
| FinderSpecs.InfoAuthorsAppends | metadata_extract/finder.py:193-200 | the step adds only authors, and each one added is the candidate `MatchCandidate` makes from one of the name matches: a PDFINFO author on the first of the first three pages that holds the name |
| FinderSpecs.InfoAuthorsAdded | metadata_extract/finder.py:193-200 | conversely, when the loop runs through, every name match is looked up without error, and each one found on a page is among the authors added |
| FinderSpecs.InfoAuthorsStopword | metadata_extract/finder.py:194-196 | when the author holds a stop word nothing is added |
| FinderSpecs.AuthorFromInfoSpec | metadata_extract/finder.py:186-200 | the step only adds authors from the PDF info, and none when the author holds a stop word |
| FinderSpecs.YearFromInfoSpec | metadata_extract/finder.py:202-218 | a year is added only with the first page of the dict whose text holds it |
| FinderSpecs.AddAllList | metadata_extract/finder.py:93-96 | candidates added in a row go last in the field's list, in order |
| FinderSpecs.IsxnStable | metadata_extract/finder.py:88-96 | pages loaded later do not change what the loop did with the earlier pages |
| FinderSpecs.IsxnValuesStep | metadata_extract/finder.py:93-96 | one more value makes the last candidate of the identifier's list |
| FinderSpecs.IsxnNext | metadata_extract/finder.py:88-96 | one more page of the loop, read with the cache as it stands after that page |
| FinderSpecs.IsxnAppends | metadata_extract/finder.py:86-96 | each candidate added is a value of the identifier read with its context on a page whose text mentions the identifier |
| FinderSpecs.IsxnPageSpec | metadata_extract/finder.py:89-96 | a page not mentioning the identifier adds nothing; one that does adds exactly the values its page object finds, in order, to that field only |
| FinderSpecs.InfoNamesAppends | metadata_extract/finder.py:244-248 | the authors' loop adds info-page authors of the page only |
| FinderSpecs.InfoPageHeadSpec | metadata_extract/finder.py:234-242 | at most one title and one publisher, both read on the info page |
| FinderSpecs.InfoPageSpec | metadata_extract/finder.py:228-248 | everything added is read on the info page, and at most one title and one publisher are added |
| FinderSpecs.InfoNamesOnlyAuthors | metadata_extract/finder.py:244-248 | the authors' loop leaves every other field as it was |
| FinderSpecs.LabelLineFrom | metadata_extract/finder.py:101-104 | a line found starts with the publisher label |
| FinderSpecs.LabelLineFirst | metadata_extract/finder.py:101-104 | the line found is the first label line, in page order and then line order |
| FinderSpecs.PublisherFoundSpec | metadata_extract/finder.py:101-117 | a publisher found is non-empty and read on a page; none without a label line; no error with a publisher from the info page |
| FinderSpecs.PublisherRunSpec | metadata_extract/finder.py:98-117 | at most one publisher, read on a page, and none when no line starts with the label; with an info-page publisher the step does not raise |
| FinderSpecs.ReplaceRemoves | metadata_extract/finder.py:165-172 | removing '©' leaves none |
| FinderSpecs.StripCharsFree | metadata_extract/finder.py:165-172 | stripping characters adds no '©' |
| FinderSpecs.CopyrightNameClean | metadata_extract/finder.py:165-172 | a copyright name holds no '©' and neither starts nor ends with a space, a dot or a comma |
| FinderSpecs.ParseCopyrightLineSpec | metadata_extract/finder.py:160-173 | a year exactly when a date is found, the date's year; the publisher is clean, and is the text before the first occurrence of the date's match when there is one |
| FinderSpecs.CopyrightYearSpec | metadata_extract/finder.py:151-153 | a line's year is added exactly when it has one |
| FinderSpecs.CopyrightPublisherSpec | metadata_extract/finder.py:154-158 | a line's publisher is added only when non-empty and not yet a publisher |
| FinderSpecs.CopyrightLineSpec | metadata_extract/finder.py:148-158 | a line adds a year exactly when it has '©' and a date, and only a new publisher |
| FinderSpecs.CopyrightLinesSpec | metadata_extract/finder.py:147-158 | a page's lines add one year per line with '©' and a date, and only new publishers |
| FinderSpecs.RunPagesFresh | metadata_extract/finder.py:146-158 | a page loop whose turns add only new publishers adds only new publishers |
| FinderSpecs.CopyrightSpec | metadata_extract/finder.py:144-158 | only years and publishers read after '©', no publisher already known, and no error |
| FinderSpecs.CopyrightPass | metadata_extract/finder.py:144-158 | `parse_copyright` never raises |
| FinderSpecs.ReportBlockSpec | metadata_extract/finder.py:53-67 | one block adds at most an upper-case report prefix that is not yet a publisher |
| FinderSpecs.ReportBlocksSpec | metadata_extract/finder.py:53-67 | a page's blocks add only new upper-case report prefixes |
| FinderSpecs.ReportPrefixSpec | metadata_extract/finder.py:48-67 | `find_report_prefix` adds only upper-case report prefixes, none already a publisher |
| FinderSpecs.PageTexts | metadata_extract/finder.py:223 | `pages.values()`: each page's text, in order |
| FinderSpecs.LanguageSpec | metadata_extract/finder.py:220-226 | one language is added exactly when detection succeeds, and the step never raises |
| FinderSpecs.FoundTitleOk | metadata_extract/finder.py:128-130 | on a store whose every field holds a candidate, reading the first title never raises |
| FinderSpecs.FrontAuthorsSpec | metadata_extract/finder.py:132-142 | each name kept becomes one front-page author, a name skipped none |
| FinderSpecs.AuthorSpec | metadata_extract/finder.py:119-142 | only front-page authors, as many as the front page's names not skipped, none when the page has no names |
| FinderSpecs.DocTypeSpec | metadata_extract/finder.py:250-254 | KeyError exactly when there is no page 1; one document type exactly when that page yields a non-empty one |
| FinderSpecs.AppendsWeaken | metadata_extract/finder.py:256-274 | appending candidates of a kind is appending candidates of any wider kind |
| Finders.SizeGroupsStep | metadata_extract/finder.py:74-77 | one more block adds its text to its font size's group |
| Finders.Progress | metadata_extract/finder.py:256-274 | one more step keeps the steps run a prefix of the fixed order, the cache growing and every candidate of a heuristic kind |
| Finders.Finder.constructor | metadata_extract/finder.py:33-37 | the finder holds the document and an empty metadata store |
| Finders.Finder.SearchInRegistry | metadata_extract/finder.py:39-46 | the method returns the registry entries `search_in_registry` specifies |
| Finders.Finder.RegisteredCandidate | metadata_extract/finder.py:65-66 | a string candidate with its registry entries set |
| Finders.Finder.GroupBySize | metadata_extract/finder.py:73-77 | the loop builds the texts of each font size |
| Finders.Finder.LargestLettered | metadata_extract/finder.py:79-84 | the cleaned text of the first sorted group whose joined text has letters |
| Finders.Finder.FindTitleFromPage | metadata_extract/finder.py:69-84 | the store and error are those of the front-page title step |
| Finders.Finder.GetTitleFromInfo | metadata_extract/finder.py:175-184 | the store and error are those of the PDF-info title step |
| Finders.Finder.GetAuthorFromInfo | metadata_extract/finder.py:186-200 | the store and error are those of the PDF-info author step |
| Finders.Finder.InfoAuthorStep | metadata_extract/finder.py:193-200 | one name match: an error, or the store the rest of the loop starts from |
| Finders.Finder.FindYearPage | metadata_extract/finder.py:211-215 | the first page of the dict holding the year, or 0 |
| Finders.Finder.GetYearFromInfo | metadata_extract/finder.py:202-218 | the store and error are those of the PDF-info year step |
| Finders.Finder.AddIsxnValues | metadata_extract/finder.py:93-96 | each value found becomes a candidate of the identifier on the page, with its context |
| Finders.Finder.IsxnPageStep | metadata_extract/finder.py:89-96 | a page is loaded only when its text mentions the identifier |
| Finders.Finder.FindIsxn | metadata_extract/finder.py:86-96 | the store and error are those of `find_isxn` |
| Finders.Finder.IsxnPages | metadata_extract/finder.py:88-96 | the page loop in the order of the pages dict |
| Finders.Finder.ReadInfoPage | metadata_extract/finder.py:228-248 | the store and error are `ReadInfoPageRun`: nothing added when the info page is absent, the read error when it fails, ValueError for a page without text, else the title, publisher and authors computed from the page's flagged blocks |
| FinderSpecs.ReadInfoPageHeuristic | metadata_extract/finder.py:228-248 | `read_info_page` adds info-page candidates only |
| Finders.Finder.InfoPageSourceOf | metadata_extract/finder.py:230-233 | the info page number and its PDF page, or the error on the way |
| Finders.Finder.InfoPageValues | metadata_extract/finder.py:234-248 | the title, the publisher and the authors of the info page, added in turn |
| Finders.Finder.InfoHeadAdd | metadata_extract/finder.py:234-242 | the title, then the publisher, each when non-empty |
| Finders.Finder.InfoAuthorsAdd | metadata_extract/finder.py:244-248 | the authors' loop, stopping at a name without words |
| Finders.Finder.FindPublisher | metadata_extract/finder.py:98-117 | the store and error are those of `find_publisher` |
| Finders.Finder.PublisherFromObject | metadata_extract/finder.py:110-116 | the publisher next to the label on the page object, loaded on demand |
| Finders.Finder.FindLabelLine | metadata_extract/finder.py:101-104 | the first line, page by page, starting with the publisher label |
| Finders.Finder.FirstLabel | metadata_extract/finder.py:102-104 | the first line of a page starting with the publisher label |
| Finders.Finder.ParseCopyright | metadata_extract/finder.py:144-158 | the store and error are those of `parse_copyright` |
| Finders.Finder.CopyrightPages | metadata_extract/finder.py:146-158 | the page loop of `parse_copyright` |
| Finders.Finder.CopyrightLines | metadata_extract/finder.py:147-158 | the line loop of one page |
| Finders.Finder.CopyrightLineAdd | metadata_extract/finder.py:148-158 | after '©', the line's year and then its publisher |
| Finders.Finder.CopyrightYearAdd | metadata_extract/finder.py:151-153 | the year of a parsed line, when there is one |
| Finders.Finder.CopyrightPublisherAdd | metadata_extract/finder.py:154-158 | the publisher of a parsed line, unless empty or known |
| Finders.Finder.FindReportPrefix | metadata_extract/finder.py:48-67 | the store and error are those of `find_report_prefix` |
| Finders.Finder.ReportPages | metadata_extract/finder.py:50-67 | the page loop, each page loaded from the PDF |
| Finders.Finder.ReportBlocks | metadata_extract/finder.py:53-67 | the block loop of one page |
| Finders.Finder.ReportBlockAdd | metadata_extract/finder.py:54-67 | one block: image blocks, letterless or one-character lines and known publishers are skipped |
| Finders.Finder.GetLanguage | metadata_extract/finder.py:220-226 | the store and error are those of `get_language` |
| Finders.Finder.FindAuthor | metadata_extract/finder.py:119-142 | the store and error are those of `find_author` |
| Finders.Finder.AuthorsOnPage | metadata_extract/finder.py:122-142 | the front page's names, checked against the first title |
| Finders.Finder.FrontAuthorsAdd | metadata_extract/finder.py:132-142 | the loop over the front page's names |
| Finders.Finder.IsSkipped | metadata_extract/finder.py:134-140 | a name is skipped when found in the title, holding a stop word, or in spaced capitals |
| Finders.Finder.FindDocumentType | metadata_extract/finder.py:250-254 | the store and error are those of `find_document_type` |
| Finders.Finder.RunStep | metadata_extract/finder.py:262-274 | the store and error are `StepRun` of the step on the old store and the page cache; the cache only grows |
| Finders.Finder.StepHeuristic | metadata_extract/finder.py:256-274 | each step adds candidates of a heuristic kind only |
| Finders.Finder.NextStep | metadata_extract/finder.py:262-274 | the next step in the fixed order, after the ones before: the store is `RunSteps` over one more step, with that step's page cache |
| Finders.Finder.InfoSteps | metadata_extract/finder.py:262-265 | steps 0 to 3 in order, up to the first that raises |
| Finders.Finder.IdentifierSteps | metadata_extract/finder.py:266-268 | steps 4 to 6 in order, up to the first that raises |
| Finders.Finder.PageSteps | metadata_extract/finder.py:269-271 | steps 7 to 9 in order, up to the first that raises |
| Finders.Finder.FrontSteps | metadata_extract/finder.py:272-274 | steps 10 to 12 in order, up to the first that raises |
| Finders.Finder.ExtractMetadata | metadata_extract/finder.py:256-274 | the store and error are `RunSteps`: the thirteen steps in their fixed order, each on the store the one before left and its own page cache, up to the first that raises; all run when none raises; every candidate gained is of a heuristic kind |
| ResourceTables.SelectedMembers | metadata_extract/resource_loader.py:54-56 | a word is kept exactly when some selected language of the data lists it |
| ResourceTables.AddLangGet | metadata_extract/resource_loader.py:84-87 | one language appends a vertical bar and its alternatives for a key after what the key held |
| ResourceTables.RawLabelsGet | metadata_extract/resource_loader.py:82-87 | a key's accumulated label is everything the languages contribute to it; a key no language lists is absent |
| ResourceTables.StripLabelsGet | metadata_extract/resource_loader.py:88-89 | stripping rewrites each value in its place |
| ResourceTables.AddLangDistinct | metadata_extract/resource_loader.py:84-87 | the accumulated labels hold each key once |
| ResourceTables.JoinEnds | metadata_extract/resource_loader.py:87-89 | a join of clean alternatives starts with the first one's first character and ends with the last one's last |
| ResourceTables.StripJoined | metadata_extract/resource_loader.py:87-89 | stripping the outer vertical bars of clean alternatives leaves exactly their join with vertical bars |
| ResourceTables.LabelOfKey | metadata_extract/resource_loader.py:82-90 | a key whose alternatives are clean is labelled by all of them, language by language, joined by vertical bars; a key no language lists has no label |
| ResourceTables.LabelEdges | metadata_extract/resource_loader.py:88-89 | a stored label never starts or ends with a vertical bar |
| ResourceTables.PickGet | metadata_extract/resource_loader.py:76-78 | a language is picked, with its table, exactly when it is selected and in the data |
| ResourceTables.PickOrder | metadata_extract/resource_loader.py:76-78 | the picked languages come in the order of their first selection |
| ResourceTables.InOrderMembers | metadata_extract/init_files.py:60 | each picked entry is a configured language with its own table |
| ResourceTables.InOrderConcat | metadata_extract/init_files.py:60 | picking for one list of languages after another is concatenating the picks |
| ResourceTables.UpdateGet | metadata_extract/resource_loader.py:105 | after `update` a key holds the new table's value when it has one, and its old value otherwise |
| ResourceTables.MergeGet | metadata_extract/resource_loader.py:100-105 | a merged word maps to what the last selected language mapping it says |
| ResourceTables.LaterOverrides | metadata_extract/resource_loader.py:102-105 | a later language overrides earlier ones |
| Resources.LoadIdempotent | metadata_extract/resource_loader.py:26-108 | loading twice with the same selection is loading once |
| Resources.LoadOnce | metadata_extract/resource_loader.py:48-108 | once every store holds something, a later load changes nothing, whatever it selects |
| Resources.EmptySelectionReloads | metadata_extract/resource_loader.py:50-56 | a selection that finds no keywords leaves the store empty, and the next load fills it from its own selection |
| Resources.LoadedKeywords | metadata_extract/resource_loader.py:49-56 | a first load keeps a keyword exactly when a chosen language lists it; `None` chooses every language |
| Resources.EmptySelection | metadata_extract/resource_loader.py:49-108 | an empty selection chooses no list languages but every label and document-type language |
| Resources.LoadedLabelLangs | metadata_extract/resource_loader.py:75-80 | with a selection, the label languages are the selected ones in the data, each with its table, in order of first selection |
| Resources.LoadedLabels | metadata_extract/resource_loader.py:82-90 | a label key whose alternatives are clean maps to all of them, language by language, joined by vertical bars |
| Resources.LoadedDocTypes | metadata_extract/resource_loader.py:100-108 | with a selection a word maps to what the last selected language mapping it says; without one the mapping is the table as read |
| Resources.ExtendSelected | metadata_extract/resource_loader.py:54-67 | the loop extends the list by each selected language's words in data order |
| Resources.NothingChosen | metadata_extract/resource_loader.py:55 | an empty selection, unlike `None`, keeps no word |
| Resources.PickLanguages | metadata_extract/resource_loader.py:77-78 | the loop picks the selected languages of the data |
| Resources.PutPut | metadata_extract/resource_loader.py:78 | writing a key twice leaves the second value in the first one's place |
| Resources.DefaultThenAppend | metadata_extract/resource_loader.py:85-87 | setting a missing key to "" and appending is writing the old value, or "", followed by the piece |
| Resources.AddLanguage | metadata_extract/resource_loader.py:84-87 | the inner loop adds one language's pieces |
| Resources.GatherLabels | metadata_extract/resource_loader.py:83-87 | the outer loop gathers the labels of the used languages |
| Resources.StripLabelValues | metadata_extract/resource_loader.py:88-89 | the loop strips the outer vertical bars of each value in its place |
| Resources.MergeSelected | metadata_extract/resource_loader.py:101-105 | the loop merges the selected languages' mappings |
| Resources.ResourceLoader.constructor | metadata_extract/resource_loader.py:18-23 | empty lists and tables; labels and mapping not yet assigned |
| Resources.ResourceLoader.Load | metadata_extract/resource_loader.py:26-30 | the four stores loaded in turn, each only when still empty |
| Resources.ResourceLoader.LoadInfoPageKeywords | metadata_extract/resource_loader.py:49-56 | an empty keyword store is filled from the selection; a full one is kept |
| Resources.ResourceLoader.LoadStopwords | metadata_extract/resource_loader.py:59-67 | likewise for stop words |
| Resources.ResourceLoader.LoadLabels | metadata_extract/resource_loader.py:70-90 | an empty label-language store is filled and the labels assigned; a full one is kept |
| Resources.ResourceLoader.LoadDocTypeMapping | metadata_extract/resource_loader.py:93-108 | an empty document-type store is filled and the mapping assigned; a full one is kept |
| Resources.ResourceLoader.GetInfoPageKeywords | metadata_extract/resource_loader.py:32-34 | the stored list, unchanged |
| Resources.ResourceLoader.GetStopwords | metadata_extract/resource_loader.py:36-38 | the stored list, unchanged |
| Resources.ResourceLoader.GetLabels | metadata_extract/resource_loader.py:40-42 | AttributeError before any load assigned the labels, else the labels |
| Resources.ResourceLoader.GetDocTypeMapping | metadata_extract/resource_loader.py:44-46 | AttributeError before any load assigned the mapping, else the mapping |
| Resources.LoadThenGet | metadata_extract/resource_loader.py:20-46 | a freshly defined class raises AttributeError for the labels, and a load makes labels and mapping readable |
| InitFiles.ConfiguredListsMembers | metadata_extract/init_files.py:56-68 | a word is kept exactly when some configured language present in the data lists it |
| InitFiles.ConfiguredOrder | metadata_extract/init_files.py:60 | configured languages contribute in their order |
| InitFiles.ConfiguredAbsent | metadata_extract/init_files.py:60 | a configured language absent from the data contributes nothing |
| InitFiles.ConfiguredLabelOfKey | metadata_extract/init_files.py:70-83 | a clean label key maps to the alternatives of every configured language in order, joined by vertical bars |
| InitFiles.RepeatedLanguage | metadata_extract/init_files.py:74-83 | a language configured twice adds its alternatives twice |
| InitFiles.InitLists | metadata_extract/init_files.py:56-68 | the loop gathers the configured languages' lists |
| InitFiles.InitLabels | metadata_extract/init_files.py:70-83 | the loops gather and strip the configured languages' labels |
| InitFiles.Tables.constructor | metadata_extract/init_files.py:27 | an instance before `__init__` has set anything |
| InitFiles.Singleton.constructor | metadata_extract/init_files.py:22-23 | no instance and not initialised |
| InitFiles.Singleton.New | metadata_extract/init_files.py:25-28 | the first call creates the instance, every later one returns it |
| InitFiles.Singleton.Init | metadata_extract/init_files.py:30-38 | a no-op once initialised; otherwise the tables are read and the flag set |
| InitFiles.Singleton.Call | metadata_extract/init_files.py:25-38 | `InitFiles()` returns the one instance, holding the configured tables |
| InitFiles.Singleton.GetInfoPageKeywords | metadata_extract/init_files.py:40-42 | the configured keywords |
| InitFiles.Singleton.GetStopwords | metadata_extract/init_files.py:44-46 | the configured stop words |
| InitFiles.Singleton.GetLabels | metadata_extract/init_files.py:48-50 | the configured labels |
| InitFiles.Singleton.GetDocTypeMapping | metadata_extract/init_files.py:52-54 | the file's mapping as read |
| InitFiles.SameInstance | metadata_extract/init_files.py:25-38 | two constructions give the same instance |
| TextCat.SplitWhereChars | language/pytextcat.py:124 | the pieces of a split hold only characters of the text |
| TextCat.TokensClean | language/pytextcat.py:117-125 | no token holds whitespace or a split character |
| TextCat.CountAllGet | language/pytextcat.py:200-225 | each gram's count goes up by the number of times it is counted |
| TextCat.BumpGet | language/pytextcat.py:200-225 | counting a gram adds one to its count and leaves every other count alone |
| TextCat.CountAllConcat | language/pytextcat.py:194-200 | counting one list of grams after another is counting their concatenation |
| TextCat.CountAllDistinct | language/pytextcat.py:200-225 | counting keeps a table's keys distinct |
| TextCat.GramsBeforeMembers | language/pytextcat.py:197-202 | the grams counted from the starts before `n` are exactly the substrings of length 1 to 4 starting there |
| TextCat.CharGramsMembers | language/pytextcat.py:195-202 | a gram is counted for a token exactly when it is a substring of length 1 to 4 of `_token_` |
| TextCat.CountStart | language/pytextcat.py:198-202 | the inner loop counts the grams of one start, leaving once a gram reaches the end |
| TextCat.CountCharGrams | language/pytextcat.py:195-202 | the loop over one token's starts counts its grams |
| TextCat.CharFreqOfText | language/pytextcat.py:192-203 | every gram of every token is counted into the table |
| TextCat.CharFreqGet | language/pytextcat.py:192-203 | a gram's count goes up by its number of occurrences among the tokens' grams |
| TextCat.WordFreqOfText | language/pytextcat.py:222-226 | every token is counted into the table |
| TextCat.WordFreqGet | language/pytextcat.py:222-226 | a word's count goes up by its number of occurrences among the tokens |
| TextCat.Top | language/pytextcat.py:156 | at most `nb` items, drawn from the table, in falling frequency |
| TextCat.Ranked | language/pytextcat.py:153-158 | each non-empty gram of the top list with its position |
| TextCat.Finish | language/pytextcat.py:152-161 | the ranks of the top non-empty grams and the table restricted to them |
| TextCat.Restrict | language/pytextcat.py:160 | the table restricted to the ranked grams |
| TextCat.TopKeys | language/pytextcat.py:156-160 | every gram of the top list is a key of the table |
| TextCat.TopValue | language/pytextcat.py:160 | a top gram keeps its value |
| TextCat.FinishOrder | language/pytextcat.py:153-158 | a lower rank never carries a lower frequency |
| TextCat.FinishDistinct | language/pytextcat.py:153-160 | a model's grams are distinct |
| TextCat.Compare | language/pytextcat.py:163-174 | at least `MISSING_VALUE` per gram of the unknown model that the model lacks, and never negative |
| TextCat.FoundZero | language/pytextcat.py:166-169 | the rank differences add up to zero exactly when every shared gram sits at the same rank |
| TextCat.CompareZero | language/pytextcat.py:163-174 | the distance is zero exactly when every gram of the unknown model is in the model at the same rank |
| TextCat.CompareSelf | language/pytextcat.py:163-174 | a model is at distance zero from itself |
| TextCat.CompareDisjoint | language/pytextcat.py:164-165 | against a model sharing no gram, every gram of the unknown model costs `MISSING_VALUE` |
| TextCat.ReadLinesConcat | language/pytextcat.py:101 | `readlines` gives back the lines that were joined |
| TextCat.ParseLine | language/pytextcat.py:102-114 | a blank line is skipped; a line not splitting into two fields, or with a non-integer frequency, raises ValueError; else its gram and frequency by column |
| TextCat.ErrSticks | language/pytextcat.py:107-114 | once a line has raised, the later lines change nothing |
| TextCat.ModelFileLast | language/pytextcat.py:112 | a gram's value is the one on the last line naming it |
| TextCat.ModelFileGrams | language/pytextcat.py:99-115 | every gram read is non-empty, free of whitespace and read once |
| TextCat.FreqOfModelFile | language/pytextcat.py:99-115 | the line loop computes the table line by line, stopping at the first error |
| TextCat.StripLine | language/pytextcat.py:102 | a written line strips to itself without its newline |
| TextCat.ParseModelLine | language/pytextcat.py:186-216 | each written line reads back as the item written |
| TextCat.ModelFileOfItems | language/pytextcat.py:99-190 | lines written from items with distinct clean grams parse back into exactly those items, in order |
| TextCat.WrittenItems | language/pytextcat.py:185-189 | the written items keep keys distinct and carry only the table's grams |
| TextCat.FilterDistinct | language/pytextcat.py:188-218 | keeping some items of a dict keeps its keys distinct |
| TextCat.ModelFileRoundTrip | language/pytextcat.py:99-220 | reading a model file gives back the items written, for either column order |
| TextCat.PermutedGet | language/pytextcat.py:160 | two tables with the same items, each key once, agree on every key |
| TextCat.ModelFileRoundTripSame | language/pytextcat.py:179-190 | a model's table survives the round trip through its model file |
| TextCat.CountAllKeys | language/pytextcat.py:200-225 | counting adds only the counted grams as keys |
| TextCat.CharGramsClean | language/pytextcat.py:195-200 | a token's grams hold no whitespace |
| TextCat.FinishKeys | language/pytextcat.py:152-160 | a finished model's keys come from the counted table |
| TextCat.FinishClean | language/pytextcat.py:152-160 | counting clean grams gives a model table with distinct, clean, non-empty grams |
| TextCat.CharModelRoundTrip | language/pytextcat.py:179-203 | a character model trained on a text reads back its table from its model file |
| TextCat.WordModelRoundTrip | language/pytextcat.py:209-226 | likewise a word model, frequency first |
| TextCat.Scores | language/pytextcat.py:341-345 | non-negative distances of active languages only; none exactly when no model's language is active |
| TextCat.CharVerdict | language/pytextcat.py:346-358 | IndexError exactly when no language is scored |
| TextCat.CharVerdictBest | language/pytextcat.py:346-354 | with non-negative scores the filter keeps the best language, a verdict names exactly it, and every survivor is within the drop ratio |
| TextCat.RankedFirstIsLeast | language/pytextcat.py:346-347 | the first of the ranking has the smallest distance |
| TextCat.RankedKept | language/pytextcat.py:348-352 | the filter keeps the best when its score is not negative, and only languages within the drop ratio |
| TextCat.Classifier.constructor | language/pytextcat.py:306-310 | the models given, their languages, and no language warned about yet |
| TextCat.Classifier.Active | language/pytextcat.py:312-333 | all languages for an empty request, else those requested that have a model |
| TextCat.Classifier.GetLangs | language/pytextcat.py:312-333 | the active languages; requested languages without a model are added to the warned set |
| TextCat.Classifier.ClassifyFull | language/pytextcat.py:335-358 | the input's character model scored against every active language, and the verdict of the drop-ratio filter |
| TextCat.SubsetSameSize | language/pytextcat.py:326 | a subset as large as its superset is all of it |
| TextCat.NewClassifier | language/pytextcat.py:306-307 | no models raises ValueError; else a classifier over them |
| LangUtil.SortByValue | language/util.py:90-100 | the items sorted by value, ascending or descending, as a permutation of the table's items |
| LangUtil.SortByValueStable | language/util.py:90-100 | items of equal value keep the table's order, in both directions |
| LangUtil.SortByValueDistinct | language/util.py:90-100 | sorting a dict's items keeps each key once |
| LangUtil.ReplaceAll | language/util.py:103-116 | the replacements applied one after another, in list order |
| LangUtil.ReplacedAllConcat | language/util.py:113-114 | two lists of replacements run one after the other are their concatenation |
| LangUtil.ReplaceAbsent | language/util.py:114 | a target that does not occur leaves the text as it is |
| LangUtil.Basename | language/util.py:87 | the text after the last '/', which holds no '/' |
| LangUtil.BasenameNoext | language/util.py:77-87 | the base name without its last `len(ext)` characters, and the empty text for an empty `ext` |
| LangUtil.BasenameAfterSlash | language/util.py:87 | the base name of a path ending in `/tail` is `tail` when `tail` has no '/' |
| LangUtil.BasenameOfModelFile | language/util.py:77-87 | a model file `folder/lang.lm` gives back `lang` |
| LangUtil.SplitOnModule | language/util.py:129-138 | the first module whose marker occurs, with the text before and after it; a second occurrence raises; none when no marker occurs |
| LangUtil.SplitPath | language/util.py:119-147 | Ok exactly when a module marker occurs once and a '/' follows it; then the root, the marker, the language, the genre, the sub-directories and the base name put back together with '/' give the path, and language, genre and base name hold no '/'; a path without a module marker raises TypeError |
| LangUtil.SplitPathModule | language/util.py:129-142 | the module reported is the first listed one whose marker occurs |
| CreateDb.FirstField | registry/createdb.py:23 | a found field is one of the record's with that tag; none is found only when no field has the tag |
| CreateDb.ControlText | registry/createdb.py:66 | a found control text belongs to a control field with that tag |
| CreateDb.TextOutdated | registry/createdb.py:9-19 | the loop's verdict is `Outdated` of the date text |
| CreateDb.FraTest | registry/createdb.py:15-16 | after a marker that does not start with 'f', the test `pos_fra > 0` holds exactly when 'fra' occurs from the marker's position on |
| CreateDb.OutdatedByMeaning | registry/createdb.py:11-19 | for markers not starting with 'f', the verdict is true exactly when some marker occurs, it is the first of the list that does, and no 'fra' follows its position |
| CreateDb.OutdatedMeaning | registry/createdb.py:9-19 | a date text is outdated exactly when, with digits masked as 'Y', the first of 'til', 't.o.m', 'perioden', 'YYYY-YYYY' that occurs is not followed by 'fra' |
| CreateDb.RecordIsOutdated | registry/createdb.py:22-33 | 0 or 1, and 1 exactly when the first `$a` of field 678, or else of 680, is outdated |
| CreateDb.FormatName | registry/createdb.py:36-61 | `int(ind1)` raises exactly when the indicator is not a number, and a name needs exactly one `$a` |
| CreateDb.FormatNameNone | registry/createdb.py:39-61 | no name for indicator 0, for other than one `$a`, for indicator 1 without `$b`, and for indicators other than 1 and 2 |
| CreateDb.FormatNameShapes | registry/createdb.py:47-58 | indicator 1 gives the `$b` parts joined by ". "; indicator 2 gives `$a. $b`, or `$a` alone when the `$b` join is empty |
| CreateDb.Results | registry/createdb.py:81-87 | a loop that stops when the processing of an item raises; a completed run holds one value per item |
| CreateDb.ResultsStep | registry/createdb.py:81-87 | one more item either keeps an earlier error, raises its own, or appends its value |
| CreateDb.ResultsSticks | registry/createdb.py:81-87 | once an item has raised, the later items change nothing |
| CreateDb.ResultsMeaning | registry/createdb.py:81-87 | a run succeeds exactly when no item raises and then holds every item's value; a failed run carries the error of the first item that raises |
| CreateDb.InFirstOccurrences | registry/createdb.py:85 | `x in variants` on a list of first occurrences is "seen before" |
| CreateDb.VariantStep | registry/createdb.py:82-87 | a formatted name is appended exactly when it is not falsy, not the main name and not listed yet |
| CreateDb.CollectVariants | registry/createdb.py:79-87 | the loop over the 410 fields returns `Variants`, or the error of a field whose indicator is not a number |
| CreateDb.VariantsMembers | registry/createdb.py:82-87 | the variants are exactly the formatted names that are neither falsy nor the main name |
| CreateDb.VariantsDistinct | registry/createdb.py:85-87 | no variant is listed twice |
| CreateDb.VariantsPrefix | registry/createdb.py:81-87 | the variants of the first fields begin the variants of all of them |
| CreateDb.ProcessRecord | registry/createdb.py:64-95 | `process_record` returns `ProcessedRecord` of the record |
| CreateDb.EntryShape | registry/createdb.py:68-95 | an entry comes only from a 'kat2' or 'kat3' record whose field 110 formats to a non-empty name; its category is the code's last character, '2' or '3', its id the 001 text, and its variants those of the 410 fields, without the name itself |
| CreateDb.OtherCategory | registry/createdb.py:68-72 | a record of another category gives no entry, whatever its names |
| CreateDb.Present | registry/createdb.py:106-109 | the entries present, in order, never more than the records |
| CreateDb.PresentMembers | registry/createdb.py:106-109 | an entry is kept exactly when some record gives it |
| CreateDb.ProcessFile | registry/createdb.py:98-110 | the loop over the parsed records returns `Entries` of them |
| CreateDb.EntriesMeaning | registry/createdb.py:98-110 | a file gives entries exactly when no record raises; then an entry is listed exactly when some record gives it |

## Left out

- The HTTP service, its settings and upload handling (`main.py`, `src/`) are not part of this model: they are framework plumbing.
- The registry database (`metadata_extract/registry.py`) is not part of this model. Its search is the `registry` function of `FinderSpecs.Oracles`; an absent registry or a raising search gives no entries.
- The LLM extractor (`metadata_extract/llm_extractor.py`) and the wiring in `metadata_extract/meteor.py` are not part of this model: they are an HTTP client and glue code.
- PDF reading (`fitz`) is replaced by given data. A `PdfDoc` holds the document's metadata and, for each page, its text, its text dictionary and its block tuples.
- XML parsing (`ET.parse`) is replaced by given data: the attribute maps of the String, TextLine, TextBlock and TextStyle elements.
- Reading the JSON resource files is replaced by given tables (`ResourceTables.ResourceData`, `InitFiles.InitData`).
- Path tests and `glob` in the `MeteorDocument` constructor are replaced by a `PathKind` parameter: a directory with its ALTO files, a PDF file, or neither.
- The `LANGUAGES` setting that `init_files` reads through `get_settings` is a string parameter of the singleton.
- `AltoFile.get_all_blocks` (metadata_extract/alto_utils.py:51-70) is not modelled, because it only walks the XML tree. The text blocks it returns are given.
- Python floats: box coordinates are `real`. The conversion of an ALTO attribute to a float is an oracle (`AltoUtils.FloatParser`) that may fail. Ratio tests are exact integer comparisons: `k / n > 0.5` is `2k > n`, and `score <= best * 1.10` is `10 * score <= 11 * best`.
- Date search (`dateparser.search_dates`), date parsing (`dateutil.parser.parse`) and language detection (`langdetect`) are the oracles of `FinderSpecs.Oracles`.
- The Unicode name pattern and the label patterns that `text.py` compiles from the label tables are the functions of a `Text.Patterns` value. Only the fixed ASCII patterns are written out: the ISSN and ISBN shapes, `^[\W\d]+$`, `\b[A-Z]{2,}\b`, `\(.*?\)`, `\W+`, `\s+` and `\bNOU\b`.
- Character classes (`\w`, `\d`, `isspace`, `isupper`, `islower`, `lower`) follow Python exactly for ASCII and Latin-1. Above U+00FF a character counts as a word character unless it is a space or lies in U+2000 to U+2BFF or U+3000 to U+303F, and it has no case.
- `\d` is `Strings.IsDigit`, the ASCII digits `0` to `9`. This is exact through Latin-1, which holds no other decimal digit. Above U+00FF, Python's `\d` (in both `re` and `regex`) also matches the other Unicode decimal digits, such as the Arabic-Indic ones; the model does not. So `Text.IssnSearch`, `Text.IsbnSearch`, `Text.HasNoLetters` and `CreateDb.MaskDigits` treat those digits as non-digits: an ISSN or ISBN written in them is not found, and a text of them alone has letters.
- Python's `int()` on a numeric string is modelled by `Strings.ParseInt`: surrounding whitespace is stripped, then an optional sign and ASCII digits are read. Non-ASCII digits and `_` separators are not accepted.
- The set iteration order in `group_by_font` (metadata_extract/infopage.py:145-158) is not fixed by Python. `InfoPages` takes the fonts in the order of their first use.
- AuthorNames.RemoveDuplicateNames: the source turns the list into a set, whose order Python does not fix. The model keeps first occurrences, and its contract states only the set of names and the absence of repeats.
- Several files come from different revisions:
  - `finder.py` reads `text.PUBLISHER_LABEL`, `text.NAME_PATTERN` and `text.STOPWORDS`, which `text.py` does not define. They are the `Patterns` value and a stop-word parameter of the finder.
  - `Page(alto_file=...)` and `Page(pdf_page=...)` in `meteor_document.py` do not match the `Page(doc, page_number)` of `page.py`. A page is built from the spans of the page's text dictionary; an ALTO page is all of its spans as one block of one line.
  - `self.doc.document` in `finder.py` is taken to be the document's PDF. `find_report_prefix` raises `AttributeError` when there is none, as `None.load_page` would.
  - The finder's constructor takes the document and the registry, as `finder.py` defines it, not the three arguments `meteor.py` passes. The registry comes bundled with the other oracles, the patterns and the stop words.
- ISBN hyphens are not stripped. No code in these files strips them.
- pytextcat:
  - The word-model reweighting in `classify_full` (language/pytextcat.py:359-381) is not modelled, and neither is the float scoring of `WordModel.finish` and `compare_tc` (language/pytextcat.py:228-254). When more than one language survives the drop ratio, `TextCat.CharVerdict` returns `None` in place of the reweighted ranking.
  - The `Classifier` constructor's folder globbing, the reading of `.lm` and `.wm` files and its "Unknown language(s)" check are not modelled, because the models are given. `TextCat.NewClassifier` keeps only the "No character models created!" error.
  - `freq_of_text_file`, `FolderTrainer`, `FileTrainer`, `proc` and the command line are not modelled: they are file and CLI code.
  - `verbose` notes and warnings are not modelled (printing only), and `ensure_unicode` is the identity on strings.
- language/util.py: `split_path` receives a path that is already absolute and normalised, because `abspath` and `normpath` need the file system. `sanity_check`, `executable_in_path`, `get_lang_resource`, `print_frame`, `print_element`, `name_to_unicode`, `note` and `ignored` are OS and printing helpers and are not modelled.
- registry/createdb.py:
  - Reading the file and parsing it with BeautifulSoup are replaced by given `Record` values. A subfield's `.next` is its text.
  - A missing subfield text and an empty one are the same "" (both are falsy where the script tests them).
  - The indicator `ind1` is always present as text; `int(ind1)` failing is `ValueError`.
  - `process_record` on a record without field 001 or 901 (or without `$a` in 901) gives `AttributeError`, as `None.next` would.
  - The `print` calls are not modelled.
  - The module-level script that builds the database (registry/createdb.py:113-167) is not modelled: it is SQL and file I/O.
- TextCat.ReadLinesConcat: lines are split only at '\n'. The model file is opened with `codecs.open`, whose `readlines` splits as `str.splitlines` does, also at '\r' (and '\r\n' as one break), '\v', '\f', U+001C to U+001E, U+0085, U+2028 and U+2029. A model file holding one of these inside a line is read differently; the lines the model writes hold none of them.
- MeteorDocuments.ReadAltoPages: each stored page object is stated to hold one block per kept span of its file, with that span's text, font, size and box, which never change. That a new page's flags are clear is stated per file by `MeteorDocuments.ReadAltoFile`, not for the finished dictionary, because flags can change later.
- MeteorDocuments.ReadAltoPages and MeteorDocuments.Open read the corrected window `FilesToRead`, not the list as written: with `end == 0` and at least `start` ALTO files the source also reads every file again (see "## Findings"), and the model reads only the first `start`.
- MeteorDocuments: closing the document through a context manager is modelled by `Close`. File handles other than the PDF are not modelled.
- Test files are not modelled, though their examples are proved about the model (for instance `Text.ReportPrefixSpaced` and the fixtures in `AuthorNames`).

## Findings

| source | as written | input that shows it | evidently intended | confidence | as-written member | corrected member |
|---|---|---|---|---|---|---|
| metadata_extract/meteor_document.py:77-78 | the trailing ALTO files are taken as `alto_files[-end:]` | `end == 0` with at least `start` files: `alto_files[-0:]` is the whole list, so the first `start` files are read twice | with `end == 0` only the first `start` files, as the PDF branch reads (metadata_extract/meteor_document.py:59-63) | medium, not executed | MeteorDocuments.FilesToReadAsWrittenNoEnd | MeteorDocuments.FilesToRead |
