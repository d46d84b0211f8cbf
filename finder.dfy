// The finder of metadata_extract/finder.py: an object over one document that fills a fresh
// candidate store, step by step, in the order `extract_metadata` fixes.  Each step is proved
// to leave the store the specification function of finder_spec.dfy computes from the store
// before it and from the page objects the document holds once the step is over.

module Finders {
  import opened Common
  import opened Strings
  import opened Dicts
  import opened Lists
  import opened Sorting
  import opened Unique
  import opened Candidates
  import opened Arbitration
  import opened Text
  import opened AuthorNames
  import opened Pages
  import opened MeteorDocuments
  import opened InfoPages
  import opened FinderSpecs

  /** The steps of `extract_metadata`. */
  datatype Step =
    | TitleFromPage | TitleFromInfo | AuthorFromInfo | YearFromInfo | Isbn | Issn | ReadInfoPage
    | Publisher | ParseCopyright | ReportPrefix | Language | Author | DocumentType

  /** The fixed order of the steps (finder.py, `extract_metadata`). */
  const ALL_STEPS: seq<Step> :=
    [TitleFromPage, TitleFromInfo, AuthorFromInfo, YearFromInfo, Isbn, Issn, ReadInfoPage,
     Publisher, ParseCopyright, ReportPrefix, Language, Author, DocumentType]

  /** One more block adds its text to the group of its font size. */
  lemma SizeGroupsStep(bs: seq<TextBlock>, i: nat)
    requires i < |bs|
    ensures SizeGroups(SizedTexts(bs[..i + 1]))
            == Put(SizeGroups(SizedTexts(bs[..i])), bs[i].fontsize,
                   Get(SizeGroups(SizedTexts(bs[..i])), bs[i].fontsize).GetOr([]) + [bs[i].text])
  {
    assert bs[..i + 1][..i] == bs[..i];
    var items := SizedTexts(bs[..i + 1]);
    assert items[..|items| - 1] == SizedTexts(bs[..i]);
  }

  /** One more step keeps the steps so far a prefix of the fixed order, the cache growing and
      every candidate of a heuristic kind. */
  lemma Progress(m0: Fields, m: Fields, m': Fields, c0: map<int, Page>, c: map<int, Page>, c': map<int, Page>,
                 t0: seq<Step>, t: seq<Step>, t': seq<Step>, k: nat, s: Step, pages: Dict<int, string>)
    requires k < |ALL_STEPS| && ALL_STEPS[k] == s
    requires Appends(m0, m, HeuristicTest(pages)) && Appends(m, m', HeuristicTest(pages))
    requires Extends(c0, c) && Extends(c, c')
    requires t == t0 + ALL_STEPS[..k] && t' == t + [s]
    ensures Appends(m0, m', HeuristicTest(pages)) && Extends(c0, c') && t' == t0 + ALL_STEPS[..k + 1]
  {
    AppendsTrans(m0, m, m', HeuristicTest(pages));
    ExtendsTrans(c0, c, c');
    assert ALL_STEPS[..k + 1] == ALL_STEPS[..k] + [ALL_STEPS[k]];
    assert t0 + ALL_STEPS[..k] + [ALL_STEPS[k]] == t0 + (ALL_STEPS[..k] + [ALL_STEPS[k]]);
  }

  /** The step of `extract_metadata` that looks for the identifier. */
  function IsxnStepOf(id: Identifier): Step
  {
    match id
    case ISBN => Isbn
    case ISSN => Issn
  }

  class Finder {
    const doc: MeteorDocument
    const metadata: Metadata
    const oracles: Oracles
    const pats: Patterns
    const stopwords: seq<string>
    const keywords: seq<string>
    const docTypes: map<string, string>
    /** The steps run so far, in order. */
    ghost var trace: seq<Step>

    ghost predicate Valid()
      reads this, metadata
    {
      metadata.Valid()
    }

    /** `Finder(doc, registry)`: an empty store.  The patterns, the stop words, the info-page
        keywords and the document types are the resource tables the finder reads. */
    constructor (doc: MeteorDocument, oracles: Oracles, pats: Patterns, stopwords: seq<string>,
                 keywords: seq<string>, docTypes: map<string, string>)
      ensures this.doc == doc && this.oracles == oracles && this.pats == pats
      ensures this.stopwords == stopwords && this.keywords == keywords && this.docTypes == docTypes
      ensures fresh(metadata) && metadata.candidates == map[] && metadata.results == NewResults()
      ensures trace == [] && Valid()
    {
      this.doc := doc;
      this.oracles := oracles;
      this.pats := pats;
      this.stopwords := stopwords;
      this.keywords := keywords;
      this.docTypes := docTypes;
      metadata := new Metadata();
      trace := [];
    }

    /** `search_in_registry`. */
    method SearchInRegistry(name: string) returns (r: seq<RegEntry>)
      ensures r == FinderSpecs.SearchInRegistry(oracles, name)
    {
      if oracles.registry.None? {
        return [];
      }
      var found := oracles.registry.value(name);
      if found.Err? {
        return [];
      }
      return found.value;
    }

    /** A string candidate with its registry entries set. */
    method RegisteredCandidate(name: string, origin: Origin, pageNr: Option<int>) returns (c: Candidate)
      ensures c == Registered(oracles, name, origin, pageNr)
    {
      c := NewCandidate(Text(name), origin, pageNr, None);
      var entries := SearchInRegistry(name);
      c := c.(regEntries := entries);
    }

    /** The `blocks` dict of `find_title_from_page`. */
    method GroupBySize(bs: seq<TextBlock>) returns (blocks: Dict<real, seq<string>>)
      ensures blocks == SizeGroups(SizedTexts(bs))
    {
      blocks := [];
      var i := 0;
      while i < |bs|
        invariant 0 <= i <= |bs|
        invariant blocks == SizeGroups(SizedTexts(bs[..i]))
      {
        SizeGroupsStep(bs, i);
        var texts := Get(blocks, bs[i].fontsize).GetOr([]);
        blocks := Put(blocks, bs[i].fontsize, texts + [bs[i].text]);
        i := i + 1;
      }
      assert bs[..i] == bs;
    }

    /** The first group, by falling font size, whose joined text has letters: its cleaned text. */
    method LargestLettered(sorted: seq<(real, seq<string>)>) returns (r: Option<string>)
      ensures r == match FirstIndex(sorted, Lettered)
                   case None => None
                   case Some(i) => Some(CleanWhitespace(Join(" ", sorted[i].1)))
    {
      var k := 0;
      while k < |sorted|
        invariant 0 <= k <= |sorted|
        invariant forall j :: 0 <= j < k ==> !Lettered(sorted[j])
      {
        var blockText := Join(" ", sorted[k].1);
        if !HasNoLetters(blockText) {
          FirstIndexAt(sorted, Lettered, k);
          return Some(CleanWhitespace(blockText));
        }
        k := k + 1;
      }
      FirstIndexNone(sorted, Lettered);
      return None;
    }

    /** `find_title_from_page`. */
    method FindTitleFromPage() returns (o: Outcome)
      requires Valid()
      modifies this, metadata, doc
      ensures Valid() && metadata.results == old(metadata.results)
      ensures Extends(old(doc.pageObjects), doc.pageObjects)
      ensures Run(metadata.candidates, o) == TitleFromPageRun(old(metadata.candidates), doc.pageObjects)
      ensures trace == old(trace) + [TitleFromPage]
    {
      trace := trace + [TitleFromPage];
      var page := doc.GetPageObject(1);
      if page.Err? {
        return Fail(page.error);
      }
      var blocks := GroupBySize(page.value.textBlocks);
      var sorted := Sort(blocks, NegSize, false);
      var title := LargestLettered(sorted);
      if title.Some? {
        metadata.AddCandidate("title", NewCandidate(Text(title.value), FRONT_PAGE, None, None));
      }
      return Pass;
    }

    /** `get_title_from_info`. */
    method GetTitleFromInfo() returns (o: Outcome)
      requires Valid()
      modifies this, metadata
      ensures Valid() && metadata.results == old(metadata.results)
      ensures Run(metadata.candidates, o) == TitleFromInfoRun(old(metadata.candidates), doc.pdfinfo, doc.pages)
      ensures trace == old(trace) + [TitleFromInfo]
    {
      trace := trace + [TitleFromInfo];
      var title := InfoValue(doc.pdfinfo, "title");
      if title.Err? {
        return Fail(title.error);
      }
      if title.value == "" {
        return Pass;
      }
      var found := FindInPages(title.value, doc.pages, 3);
      if found.Err? {
        return Fail(found.error);
      }
      if found.value > 0 {
        metadata.AddCandidate("title", NewCandidate(Text(title.value), PDFINFO, Some(found.value), None));
      }
      return Pass;
    }

    /** `get_author_from_info`. */
    method GetAuthorFromInfo() returns (o: Outcome)
      requires Valid()
      modifies this, metadata
      ensures Valid() && metadata.results == old(metadata.results)
      ensures Run(metadata.candidates, o)
              == AuthorFromInfoRun(old(metadata.candidates), doc.pdfinfo, pats, stopwords, doc.pages)
      ensures trace == old(trace) + [AuthorFromInfo]
    {
      trace := trace + [AuthorFromInfo];
      var author := InfoValue(doc.pdfinfo, "author");
      if author.Err? {
        return Fail(author.error);
      }
      if author.value == "" {
        return Pass;
      }
      var matches := pats.nameFindAll(author.value);
      ghost var m0 := metadata.candidates;
      var i := 0;
      while i < |matches|
        invariant 0 <= i <= |matches|
        invariant metadata.Valid() && metadata.results == old(metadata.results)
        invariant trace == old(trace) + [AuthorFromInfo]
        invariant InfoAuthorsFrom(m0, author.value, matches, 0, stopwords, doc.pages)
                  == InfoAuthorsFrom(metadata.candidates, author.value, matches, i, stopwords, doc.pages)
      {
        var err := InfoAuthorStep(author.value, matches, i);
        if err.Some? {
          return Fail(err.value);
        }
        i := i + 1;
      }
      return Pass;
    }

    /** One name match of `get_author_from_info`: an error, or the store the rest of the loop
        starts from. */
    method InfoAuthorStep(author: string, matches: seq<string>, i: nat) returns (err: Option<string>)
      requires Valid() && i < |matches|
      modifies metadata
      ensures Valid() && metadata.results == old(metadata.results)
      ensures err.Some? ==> metadata.candidates == old(metadata.candidates)
                            && InfoAuthorsFrom(old(metadata.candidates), author, matches, i, stopwords, doc.pages)
                               == Run(old(metadata.candidates), Fail(err.value))
      ensures err.None? ==> InfoAuthorsFrom(old(metadata.candidates), author, matches, i, stopwords, doc.pages)
                            == InfoAuthorsFrom(metadata.candidates, author, matches, i + 1, stopwords, doc.pages)
    {
      var found := FindInPages(matches[i], doc.pages, 3);
      if found.Err? {
        return Some(found.error);
      }
      if !HasStopword(stopwords, author) && found.value > 0 {
        var v := CreateAuthorDict(matches[i]);
        if v.Err? {
          return Some(v.error);
        }
        metadata.AddCandidate("author", NewCandidate(v.value, PDFINFO, Some(found.value), None));
      }
      return None;
    }

    /** The loop of `get_year_from_info` over the pages: the first page holding the year. */
    method FindYearPage(y: int) returns (n: int)
      ensures n == YearPage(doc.pages, y)
    {
      var k := 0;
      while k < |doc.pages|
        invariant 0 <= k <= |doc.pages|
        invariant forall j :: 0 <= j < k ==> !YearTest(y)(doc.pages[j])
      {
        if Contains(doc.pages[k].1, IntToString(y)) {
          FirstIndexAt(doc.pages, YearTest(y), k);
          return doc.pages[k].0;
        }
        k := k + 1;
      }
      FirstIndexNone(doc.pages, YearTest(y));
      return 0;
    }

    /** `get_year_from_info`. */
    method GetYearFromInfo() returns (o: Outcome)
      requires Valid()
      modifies this, metadata
      ensures Valid() && metadata.results == old(metadata.results)
      ensures Run(metadata.candidates, o) == YearFromInfoRun(old(metadata.candidates), doc.pdfinfo, oracles, doc.pages)
      ensures trace == old(trace) + [YearFromInfo]
    {
      trace := trace + [YearFromInfo];
      var year := InfoYear(doc.pdfinfo, oracles);
      if year.Err? {
        return Fail(year.error);
      }
      if year.value.None? {
        return Pass;
      }
      var n := FindYearPage(year.value.value);
      if n > 0 {
        metadata.AddCandidate("year", NewCandidate(Number(year.value.value), PDFINFO, Some(n), None));
      }
      return Pass;
    }

    /** The inner loop of `find_isxn`: each value a page object finds becomes a candidate of the
        identifier, on page `number` and with its context. */
    method AddIsxnValues(id: Identifier, number: int, values: seq<ValueAndContext>, ghost t: seq<(string, string)>)
      requires Valid() && AllCarry(values, t)
      modifies metadata
      ensures Valid() && metadata.results == old(metadata.results)
      ensures metadata.candidates == AddAll(old(metadata.candidates), IdentifierName(id), Map(t, IsxnCandidateOf(number)))
    {
      ghost var c0 := metadata.candidates;
      var k := 0;
      while k < |values|
        invariant 0 <= k <= |values|
        invariant metadata.Valid() && metadata.results == old(metadata.results)
        invariant metadata.candidates == AddAll(c0, IdentifierName(id), Map(t[..k], IsxnCandidateOf(number)))
      {
        IsxnValuesStep(c0, IdentifierName(id), t, k, number);
        metadata.AddCandidate(IdentifierName(id), NewCandidate(Text(values[k].value), PAGE, Some(number), values[k].context));
        k := k + 1;
      }
      assert t[..k] == t;
    }

    /** One page of `find_isxn`: the page is loaded only when its text mentions the identifier. */
    method IsxnPageStep(id: Identifier, i: nat) returns (err: Option<string>)
      requires Valid() && i < |doc.pages|
      modifies metadata, doc
      ensures Valid() && metadata.results == old(metadata.results)
      ensures Extends(old(doc.pageObjects), doc.pageObjects)
      ensures err.None? && Contains(doc.pages[i].1, IdentifierName(id)) ==> doc.pages[i].0 in doc.pageObjects
      ensures IsxnPage(old(metadata.candidates), id, doc.pages[i], doc.pageObjects)
              == Run(metadata.candidates, if err.Some? then Fail(err.value) else Pass)
    {
      var number := doc.pages[i].0;
      if !Contains(doc.pages[i].1, IdentifierName(id)) {
        return None;
      }
      var page := doc.GetPageObject(number);
      if page.Err? {
        return Some(page.error);
      }
      var values := page.value.FindIsxnValues(id);
      AddIsxnValues(id, number, values, PageIsxns(page.value, id));
      return None;
    }

    /** `find_isxn`. */
    method FindIsxn(id: Identifier) returns (o: Outcome)
      requires Valid()
      modifies this, metadata, doc
      ensures Valid() && metadata.results == old(metadata.results)
      ensures Extends(old(doc.pageObjects), doc.pageObjects)
      ensures Run(metadata.candidates, o) == IsxnRun(old(metadata.candidates), id, doc.pages, doc.pageObjects)
      ensures trace == old(trace) + [IsxnStepOf(id)]
    {
      trace := trace + [IsxnStepOf(id)];
      o := IsxnPages(id);
    }

    /** The loop of `find_isxn` over the pages, in the order of the pages dict. */
    method IsxnPages(id: Identifier) returns (o: Outcome)
      requires Valid()
      modifies metadata, doc
      ensures Valid() && metadata.results == old(metadata.results)
      ensures Extends(old(doc.pageObjects), doc.pageObjects)
      ensures Run(metadata.candidates, o) == RunPages(old(metadata.candidates), IsxnStep(id, doc.pageObjects), doc.pages, |doc.pages|)
    {
      ghost var m0 := metadata.candidates;
      var i := 0;
      while i < |doc.pages|
        invariant 0 <= i <= |doc.pages|
        invariant Valid() && metadata.results == old(metadata.results)
        invariant Extends(old(doc.pageObjects), doc.pageObjects)
        invariant IsxnLoaded(id, doc.pages, doc.pageObjects, i)
        invariant RunPages(m0, IsxnStep(id, doc.pageObjects), doc.pages, i) == Run(metadata.candidates, Pass)
      {
        ghost var objs := doc.pageObjects;
        ghost var before := metadata.candidates;
        var err := IsxnPageStep(id, i);
        ExtendsTrans(old(doc.pageObjects), objs, doc.pageObjects);
        IsxnNext(m0, id, doc.pages, objs, doc.pageObjects, before, i, Run(metadata.candidates, if err.Some? then Fail(err.value) else Pass));
        if err.Some? {
          RunPagesFail(m0, IsxnStep(id, doc.pageObjects), doc.pages, i + 1, |doc.pages|);
          return Fail(err.value);
        }
        i := i + 1;
      }
      return Pass;
    }

    /** `read_info_page`. */
    method ReadInfoPage() returns (o: Outcome)
      requires Valid()
      modifies this, metadata
      ensures Valid() && metadata.results == old(metadata.results)
      ensures trace == old(trace) + [Step.ReadInfoPage]
      ensures Run(metadata.candidates, o) == ReadInfoPageRun(old(metadata.candidates), oracles, pats, keywords, doc.pages, doc.pdfdoc)
    {
      trace := trace + [Step.ReadInfoPage];
      o := InfoPageAdd();
    }

    method InfoPageAdd() returns (o: Outcome)
      requires Valid()
      modifies metadata
      ensures Valid() && metadata.results == old(metadata.results)
      ensures Run(metadata.candidates, o) == ReadInfoPageRun(old(metadata.candidates), oracles, pats, keywords, doc.pages, doc.pdfdoc)
    {
      var src := InfoPageSourceOf();
      if src.Err? {
        return Fail(src.error);
      }
      if src.value.None? {
        return Pass;
      }
      var made := MakeInfoPage(src.value.value.1, keywords);
      if made.Err? {
        return Fail(made.error);
      }
      made.value.TitleOfBlocks();
      made.value.PublisherOfBlocks(pats);
      made.value.AuthorOfBlocks(pats);
      o := InfoPageValues(src.value.value.0, made.value);
    }

    /** `InfoPage.find_page_number`, then the PDF page it names. */
    method InfoPageSourceOf() returns (r: Result<Option<(int, seq<RawBlock>)>>)
      ensures r == InfoPageSource(doc.pages, keywords, doc.pdfdoc)
    {
      var number := FindPageNumber(doc.pages, keywords);
      if number.Err? {
        return Err(number.error);
      }
      if number.value == 0 {
        return Ok(None);
      }
      if doc.pdfdoc.None? {
        return Err("AttributeError");
      }
      if !(1 <= number.value <= |doc.pdfdoc.value.pages|) {
        return Err("ValueError");
      }
      return Ok(Some((number.value, doc.pdfdoc.value.pages[number.value - 1].blocks)));
    }

    /** The title, the publisher and the authors of the info page `number`, added in turn. */
    method InfoPageValues(number: int, infoPage: InfoPage) returns (o: Outcome)
      requires Valid()
      modifies metadata
      ensures Valid() && metadata.results == old(metadata.results)
      ensures Run(metadata.candidates, o)
              == InfoPageRun(old(metadata.candidates), oracles, number,
                             old(infoPage.TitleOf()), old(infoPage.PublisherOf(pats)), old(infoPage.AuthorOf(pats)))
    {
      var title, publisher, authors := infoPage.Values(pats);
      InfoHeadAdd(number, title, publisher);
      o := Pass;
      if authors.Some? {
        o := InfoAuthorsAdd(number, authors.value);
      }
    }

    /** The title and then the publisher of the info page, each added when it is non-empty. */
    method InfoHeadAdd(number: int, title: Option<string>, publisher: Option<string>)
      requires Valid()
      modifies metadata
      ensures Valid() && metadata.results == old(metadata.results)
      ensures metadata.candidates == InfoPageHead(old(metadata.candidates), oracles, number, title, publisher)
    {
      if title.Some? && title.value != "" {
        metadata.AddCandidate("title", NewCandidate(Text(title.value), INFO_PAGE, Some(number), None));
      }
      if publisher.Some? && publisher.value != "" {
        var cand := RegisteredCandidate(publisher.value, INFO_PAGE, Some(number));
        metadata.AddCandidate("publisher", cand);
      }
    }

    /** The authors' loop of `read_info_page`. */
    method InfoAuthorsAdd(number: int, names: seq<string>) returns (o: Outcome)
      requires Valid()
      modifies metadata
      ensures Valid() && metadata.results == old(metadata.results)
      ensures Run(metadata.candidates, o) == InfoNamesFrom(old(metadata.candidates), number, names, 0)
    {
      ghost var m0 := metadata.candidates;
      var i := 0;
      while i < |names|
        invariant 0 <= i <= |names|
        invariant Valid() && metadata.results == old(metadata.results)
        invariant InfoNamesFrom(m0, number, names, 0) == InfoNamesFrom(metadata.candidates, number, names, i)
      {
        var v := CreateAuthorDict(names[i]);
        if v.Err? {
          return Fail(v.error);
        }
        metadata.AddCandidate("author", NewCandidate(v.value, INFO_PAGE, Some(number), None));
        i := i + 1;
      }
      return Pass;
    }

    /** `find_publisher`. */
    method FindPublisher() returns (o: Outcome)
      requires Valid()
      modifies this, metadata, doc
      ensures Valid() && metadata.results == old(metadata.results)
      ensures Extends(old(doc.pageObjects), doc.pageObjects)
      ensures Run(metadata.candidates, o) == PublisherRun(old(metadata.candidates), pats, oracles, doc.pages, doc.pageObjects)
      ensures trace == old(trace) + [Publisher]
    {
      trace := trace + [Publisher];
      o := PublisherAdd();
    }

    method PublisherAdd() returns (o: Outcome)
      requires Valid()
      modifies metadata, doc
      ensures Valid() && metadata.results == old(metadata.results)
      ensures Extends(old(doc.pageObjects), doc.pageObjects)
      ensures Run(metadata.candidates, o) == PublisherRun(old(metadata.candidates), pats, oracles, doc.pages, doc.pageObjects)
    {
      var found := FindLabelLine();
      if found.None? {
        return Pass;
      }
      var (number, line) := found.value;
      var value := LabelValue(pats, line);
      if value != "" {
        var publisher := RegisteredCandidate(value, PAGE, Some(number));
        metadata.AddCandidate("publisher", publisher);
        return Pass;
      }
      var fromInfoPage := metadata.HasPublisherFromInfopage();
      if fromInfoPage {
        return Pass;
      }
      o := PublisherFromObject(number);
    }

    /** The publisher next to the label on the page object `number`, loaded on demand. */
    method PublisherFromObject(number: int) returns (o: Outcome)
      requires Valid()
      modifies metadata, doc
      ensures Valid() && metadata.results == old(metadata.results)
      ensures Extends(old(doc.pageObjects), doc.pageObjects)
      ensures Run(metadata.candidates, o) == AddPublisher(old(metadata.candidates), ObjectPublisher(pats, oracles, number, doc.pageObjects))
    {
      var page := doc.GetPageObject(number);
      if page.Err? {
        return Fail(page.error);
      }
      var block := page.value.FindPublisher(pats);
      if block.Some? && block.value != "" {
        var publisher := RegisteredCandidate(block.value, PAGE, Some(number));
        metadata.AddCandidate("publisher", publisher);
      }
      return Pass;
    }

    /** The first line, page by page, that starts with the publisher label. */
    method FindLabelLine() returns (r: Option<(int, string)>)
      ensures r == LabelLineFrom(pats, doc.pages, 0)
    {
      var i := 0;
      while i < |doc.pages|
        invariant 0 <= i <= |doc.pages|
        invariant LabelLineFrom(pats, doc.pages, 0) == LabelLineFrom(pats, doc.pages, i)
      {
        var lines := Lines(doc.pages[i].1);
        var j := FirstLabel(lines);
        if j.Some? {
          return Some((doc.pages[i].0, lines[j.value]));
        }
        i := i + 1;
      }
      return None;
    }

    /** The first of the lines that starts with the publisher label. */
    method FirstLabel(lines: seq<string>) returns (r: Option<nat>)
      ensures r == FirstIndex(lines, LabelTest(pats))
    {
      var j := 0;
      while j < |lines|
        invariant 0 <= j <= |lines|
        invariant forall k :: 0 <= k < j ==> !LabelTest(pats)(lines[k])
      {
        if pats.publisherLabelMatch(lines[j]).Some? {
          FirstIndexAt(lines, LabelTest(pats), j);
          return Some(j);
        }
        j := j + 1;
      }
      FirstIndexNone(lines, LabelTest(pats));
      return None;
    }

    /** `parse_copyright`. */
    method ParseCopyright() returns (o: Outcome)
      requires Valid()
      modifies this, metadata
      ensures Valid() && metadata.results == old(metadata.results)
      ensures Run(metadata.candidates, o) == CopyrightRun(old(metadata.candidates), oracles, doc.pages)
      ensures trace == old(trace) + [Step.ParseCopyright]
    {
      trace := trace + [Step.ParseCopyright];
      o := CopyrightPages();
    }

    /** The loop of `parse_copyright` over the pages. */
    method CopyrightPages() returns (o: Outcome)
      requires Valid()
      modifies metadata
      ensures Valid() && metadata.results == old(metadata.results)
      ensures Run(metadata.candidates, o) == CopyrightRun(old(metadata.candidates), oracles, doc.pages)
    {
      ghost var m0 := metadata.candidates;
      var i := 0;
      while i < |doc.pages|
        invariant 0 <= i <= |doc.pages|
        invariant Valid() && metadata.results == old(metadata.results)
        invariant RunPages(m0, CopyrightPage(oracles), doc.pages, i) == Run(metadata.candidates, Pass)
      {
        CopyrightLines(doc.pages[i].0, Lines(doc.pages[i].1));
        i := i + 1;
      }
      return Pass;
    }

    /** The loop of `parse_copyright` over the lines of page `number`. */
    method CopyrightLines(number: int, lines: seq<string>)
      requires Valid()
      modifies metadata
      ensures Valid() && metadata.results == old(metadata.results)
      ensures metadata.candidates == CopyrightLinesFrom(oracles, old(metadata.candidates), number, lines, 0)
    {
      ghost var m0 := metadata.candidates;
      var j := 0;
      while j < |lines|
        invariant 0 <= j <= |lines|
        invariant Valid() && metadata.results == old(metadata.results)
        invariant CopyrightLinesFrom(oracles, m0, number, lines, 0) == CopyrightLinesFrom(oracles, metadata.candidates, number, lines, j)
      {
        CopyrightLineAdd(number, lines[j]);
        j := j + 1;
      }
    }

    /** One line of `parse_copyright`: after `©`, its year and then its publisher. */
    method CopyrightLineAdd(number: int, line: string)
      requires Valid()
      modifies metadata
      ensures Valid() && metadata.results == old(metadata.results)
      ensures metadata.candidates == CopyrightLine(oracles, old(metadata.candidates), number, line)
    {
      var res := LineCopyright(oracles, line);
      if res.None? {
        return;
      }
      CopyrightYearAdd(number, res.value);
      CopyrightPublisherAdd(number, res.value);
    }

    /** The year of a parsed copyright line. */
    method CopyrightYearAdd(number: int, res: Copyright)
      requires Valid()
      modifies metadata
      ensures Valid() && metadata.results == old(metadata.results)
      ensures metadata.candidates == CopyrightYear(old(metadata.candidates), number, res)
    {
      if res.year.Some? {
        metadata.AddCandidate("year", NewCandidate(Number(res.year.value), COPYRIGHT, Some(number), None));
      }
    }

    /** The publisher of a parsed copyright line. */
    method CopyrightPublisherAdd(number: int, res: Copyright)
      requires Valid()
      modifies metadata
      ensures Valid() && metadata.results == old(metadata.results)
      ensures metadata.candidates == CopyrightPublisher(oracles, old(metadata.candidates), number, res)
    {
      if res.publisher != "" && !HasPublisher(metadata.candidates, res.publisher) {
        var publisher := RegisteredCandidate(res.publisher, COPYRIGHT, Some(number));
        metadata.AddCandidate("publisher", publisher);
      }
    }

    /** `find_report_prefix`. */
    method FindReportPrefix() returns (o: Outcome)
      requires Valid()
      modifies this, metadata
      ensures Valid() && metadata.results == old(metadata.results)
      ensures Run(metadata.candidates, o) == ReportPrefixRun(old(metadata.candidates), oracles, pats, doc.pdfdoc, doc.pages)
      ensures trace == old(trace) + [ReportPrefix]
    {
      trace := trace + [ReportPrefix];
      o := ReportPages();
    }

    /** The loop of `find_report_prefix` over the pages, each loaded from the PDF. */
    method ReportPages() returns (o: Outcome)
      requires Valid()
      modifies metadata
      ensures Valid() && metadata.results == old(metadata.results)
      ensures Run(metadata.candidates, o) == ReportPrefixRun(old(metadata.candidates), oracles, pats, doc.pdfdoc, doc.pages)
    {
      ghost var m0 := metadata.candidates;
      var i := 0;
      while i < |doc.pages|
        invariant 0 <= i <= |doc.pages|
        invariant Valid() && metadata.results == old(metadata.results)
        invariant RunPages(m0, ReportPage(oracles, pats, doc.pdfdoc), doc.pages, i) == Run(metadata.candidates, Pass)
      {
        var number := doc.pages[i].0;
        if doc.pdfdoc.None? || !(1 <= number <= |doc.pdfdoc.value.pages|) {
          o := if doc.pdfdoc.None? then Fail("AttributeError") else Fail("ValueError");
          RunPagesNext(m0, ReportPage(oracles, pats, doc.pdfdoc), doc.pages, i);
          RunPagesFail(m0, ReportPage(oracles, pats, doc.pdfdoc), doc.pages, i + 1, |doc.pages|);
          return;
        }
        ReportBlocks(number, doc.pdfdoc.value.pages[number - 1].tuples);
        RunPagesNext(m0, ReportPage(oracles, pats, doc.pdfdoc), doc.pages, i);
        i := i + 1;
      }
      return Pass;
    }

    /** The loop of `find_report_prefix` over the blocks of page `number`. */
    method ReportBlocks(number: int, bs: seq<BlockTuple>)
      requires Valid()
      modifies metadata
      ensures Valid() && metadata.results == old(metadata.results)
      ensures metadata.candidates == ReportBlocksFrom(oracles, pats, old(metadata.candidates), number, bs, 0)
    {
      ghost var m0 := metadata.candidates;
      var j := 0;
      while j < |bs|
        invariant 0 <= j <= |bs|
        invariant Valid() && metadata.results == old(metadata.results)
        invariant ReportBlocksFrom(oracles, pats, m0, number, bs, 0) == ReportBlocksFrom(oracles, pats, metadata.candidates, number, bs, j)
      {
        ReportBlockAdd(number, bs[j]);
        j := j + 1;
      }
    }

    /** One block of `find_report_prefix`. */
    method ReportBlockAdd(number: int, b: BlockTuple)
      requires Valid()
      modifies metadata
      ensures Valid() && metadata.results == old(metadata.results)
      ensures metadata.candidates == ReportBlock(oracles, pats, old(metadata.candidates), number, b)
    {
      if b.kind == 1 {
        return;
      }
      var line := FirstLine(b.text);
      if HasNoLetters(line) || |line| == 1 || HasPublisher(metadata.candidates, line) {
        return;
      }
      var reportPrefix := Text.FindReportPrefix(pats, line);
      if reportPrefix.None? || HasPublisher(metadata.candidates, reportPrefix.value) {
        return;
      }
      var publisher := RegisteredCandidate(reportPrefix.value, RAPPORT_PREFIX, Some(number));
      metadata.AddCandidate("publisher", publisher);
    }

    /** `get_language`: langdetect's exception is the `None` of `detectLanguage`. */
    method GetLanguage() returns (o: Outcome)
      requires Valid()
      modifies this, metadata
      ensures Valid() && metadata.results == old(metadata.results)
      ensures Run(metadata.candidates, o) == LanguageRun(old(metadata.candidates), oracles, doc.pages)
      ensures trace == old(trace) + [Language]
    {
      trace := trace + [Language];
      var lang := oracles.detectLanguage(Join(" ", PageTexts(doc.pages)));
      if lang.Some? {
        metadata.AddCandidate("language", NewCandidate(Text(lang.value), LANGUAGE_MODEL, None, None));
      }
      return Pass;
    }

    /** `find_author`. */
    method FindAuthor() returns (o: Outcome)
      requires Valid()
      modifies this, metadata, doc
      ensures Valid() && metadata.results == old(metadata.results)
      ensures Extends(old(doc.pageObjects), doc.pageObjects)
      ensures Run(metadata.candidates, o) == AuthorRun(old(metadata.candidates), pats, stopwords, doc.pageObjects)
      ensures trace == old(trace) + [Author]
    {
      trace := trace + [Author];
      o := AuthorAdd();
    }

    method AuthorAdd() returns (o: Outcome)
      requires Valid()
      modifies metadata, doc
      ensures Valid() && metadata.results == old(metadata.results)
      ensures Extends(old(doc.pageObjects), doc.pageObjects)
      ensures Run(metadata.candidates, o) == AuthorRun(old(metadata.candidates), pats, stopwords, doc.pageObjects)
    {
      var page := doc.GetPageObject(1);
      if page.Err? {
        return Fail(page.error);
      }
      o := AuthorsOnPage(page.value);
    }

    /** The names of the front page's probable name blocks, checked against the first title. */
    method AuthorsOnPage(page: Page) returns (o: Outcome)
      requires Valid()
      modifies metadata
      ensures Valid() && metadata.results == old(metadata.results)
      ensures Run(metadata.candidates, o) == AuthorOnPage(old(metadata.candidates), pats, stopwords, page)
    {
      var blockToStr := ConcatTextBlocks(pats, page.textBlocks);
      var authors := GetAuthorNames(pats, blockToStr);
      if authors.None? || authors.value == [] {
        return Pass;
      }
      FoundTitleOk(metadata.candidates);
      var foundTitle := FoundTitle(metadata.candidates).value;
      o := FrontAuthorsAdd(foundTitle, authors.value);
    }

    /** The loop of `find_author` over the names found on the front page. */
    method FrontAuthorsAdd(title: Option<string>, names: seq<string>) returns (o: Outcome)
      requires Valid()
      modifies metadata
      ensures Valid() && metadata.results == old(metadata.results)
      ensures Run(metadata.candidates, o) == FrontAuthorsFrom(old(metadata.candidates), KeptName(title, stopwords), names, 0)
    {
      ghost var m0 := metadata.candidates;
      var i := 0;
      while i < |names|
        invariant 0 <= i <= |names|
        invariant Valid() && metadata.results == old(metadata.results)
        invariant FrontAuthorsFrom(m0, KeptName(title, stopwords), names, 0)
                  == FrontAuthorsFrom(metadata.candidates, KeptName(title, stopwords), names, i)
      {
        var skip := IsSkipped(title, names[i]);
        if !skip {
          var v := CreateAuthorDict(names[i]);
          if v.Err? {
            return Fail(v.error);
          }
          metadata.AddCandidate("author", NewCandidate(v.value, FRONT_PAGE, None, None));
        }
        i := i + 1;
      }
      return Pass;
    }

    /** The three tests `find_author` skips a name on. */
    method IsSkipped(title: Option<string>, name: string) returns (r: bool)
      ensures r == !KeptName(title, stopwords)(name)
    {
      if title.Some? && NameExistsInTitle(title.value, name) {
        return true;
      }
      if HasStopword(stopwords, name) {
        return true;
      }
      r := IsAllCapsSpaced(name);
    }

    /** `find_document_type`. */
    method FindDocumentType() returns (o: Outcome)
      requires Valid()
      modifies this, metadata
      ensures Valid() && metadata.results == old(metadata.results)
      ensures Run(metadata.candidates, o) == DocTypeRun(old(metadata.candidates), pats, docTypes, doc.pages)
      ensures trace == old(trace) + [DocumentType]
    {
      trace := trace + [DocumentType];
      var first := Get(doc.pages, 1);
      if first.None? {
        return Fail("KeyError");
      }
      var docType := FindDocType(pats, docTypes, first.value);
      if docType.Some? && docType.value != "" {
        metadata.AddCandidate("document_type", NewCandidate(Text(docType.value), FRONT_PAGE, None, None));
      }
      return Pass;
    }

    /** What step `s` of `extract_metadata` does to the store `m`, the page cache being `cache`
        once the step is over. */
    ghost function StepRun(s: Step, m: Fields, cache: map<int, Page>): Run
    {
      match s
      case TitleFromPage => TitleFromPageRun(m, cache)
      case TitleFromInfo => TitleFromInfoRun(m, doc.pdfinfo, doc.pages)
      case AuthorFromInfo => AuthorFromInfoRun(m, doc.pdfinfo, pats, stopwords, doc.pages)
      case YearFromInfo => YearFromInfoRun(m, doc.pdfinfo, oracles, doc.pages)
      case Isbn => IsxnRun(m, ISBN, doc.pages, cache)
      case Issn => IsxnRun(m, ISSN, doc.pages, cache)
      case ReadInfoPage => ReadInfoPageRun(m, oracles, pats, keywords, doc.pages, doc.pdfdoc)
      case Publisher => PublisherRun(m, pats, oracles, doc.pages, cache)
      case ParseCopyright => CopyrightRun(m, oracles, doc.pages)
      case ReportPrefix => ReportPrefixRun(m, oracles, pats, doc.pdfdoc, doc.pages)
      case Language => LanguageRun(m, oracles, doc.pages)
      case Author => AuthorRun(m, pats, stopwords, cache)
      case DocumentType => DocTypeRun(m, pats, docTypes, doc.pages)
    }

    /** The first `|caches|` steps of `extract_metadata` from the store `m`, stopping at the first
        that raises; `caches[k]` is the page cache once step `k` is over. */
    ghost function RunSteps(m: Fields, caches: seq<map<int, Page>>): Run
      requires |caches| <= |ALL_STEPS|
    {
      if |caches| == 0 then Run(m, Pass)
      else
        var r := RunSteps(m, caches[..|caches| - 1]);
        if r.outcome.Fail? then r else StepRun(ALL_STEPS[|caches| - 1], r.fields, caches[|caches| - 1])
    }

    /** Each step adds candidates of a heuristic kind only. */
    lemma StepHeuristic(s: Step, m: Fields, cache: map<int, Page>)
      ensures Appends(m, StepRun(s, m, cache).fields, HeuristicTest(doc.pages))
    {
      match s
      case TitleFromPage => TitleFromPageHeuristic(m, cache, doc.pages);
      case TitleFromInfo => TitleFromInfoHeuristic(m, doc.pdfinfo, doc.pages);
      case AuthorFromInfo => AuthorFromInfoHeuristic(m, doc.pdfinfo, pats, stopwords, doc.pages);
      case YearFromInfo => YearFromInfoHeuristic(m, doc.pdfinfo, oracles, doc.pages);
      case Isbn => IsxnHeuristic(m, ISBN, doc.pages, cache);
      case Issn => IsxnHeuristic(m, ISSN, doc.pages, cache);
      case ReadInfoPage => ReadInfoPageHeuristic(m, oracles, pats, keywords, doc.pages, doc.pdfdoc);
      case Publisher => PublisherHeuristic(m, pats, oracles, doc.pages, cache);
      case ParseCopyright => CopyrightHeuristic(m, oracles, doc.pages);
      case ReportPrefix => ReportPrefixHeuristic(m, oracles, pats, doc.pdfdoc, doc.pages);
      case Language => LanguageHeuristic(m, oracles, doc.pages);
      case Author => AuthorHeuristic(m, pats, stopwords, cache, doc.pages);
      case DocumentType => DocTypeHeuristic(m, pats, docTypes, doc.pages);
    }

    /** One step of `extract_metadata`: what it does is what `StepRun` says, with the page
        cache it leaves. */
    method RunStep(s: Step) returns (o: Outcome)
      requires Valid()
      modifies this, metadata, doc
      ensures Valid() && metadata.results == old(metadata.results)
      ensures Extends(old(doc.pageObjects), doc.pageObjects)
      ensures Run(metadata.candidates, o) == StepRun(s, old(metadata.candidates), doc.pageObjects)
      ensures trace == old(trace) + [s]
    {
      match s
      case TitleFromPage => o := FindTitleFromPage();
      case TitleFromInfo => o := GetTitleFromInfo();
      case AuthorFromInfo => o := GetAuthorFromInfo();
      case YearFromInfo => o := GetYearFromInfo();
      case Isbn => o := FindIsxn(ISBN);
      case Issn => o := FindIsxn(ISSN);
      case ReadInfoPage => o := ReadInfoPage();
      case Publisher => o := FindPublisher();
      case ParseCopyright => o := ParseCopyright();
      case ReportPrefix => o := FindReportPrefix();
      case Language => o := GetLanguage();
      case Author => o := FindAuthor();
      case DocumentType => o := FindDocumentType();
    }

    /** The steps run so far, since the store was `m0`, the cache `c0` and the trace `t0`, are the
        first `|caches|` in the fixed order; together they did what `RunSteps` says, none of them
        but the last raised, and every page cache a step saw is part of the cache now. */
    ghost predicate Begun(m0: Fields, c0: map<int, Page>, t0: seq<Step>, caches: seq<map<int, Page>>, o: Outcome)
      reads this, metadata, doc
    {
      && Valid() && |caches| <= |ALL_STEPS|
      && Appends(m0, metadata.candidates, HeuristicTest(doc.pages))
      && Extends(c0, doc.pageObjects)
      && trace == t0 + ALL_STEPS[..|caches|]
      && Run(metadata.candidates, o) == RunSteps(m0, caches)
      && (|caches| > 0 ==> RunSteps(m0, caches[..|caches| - 1]).outcome.Pass?)
      && (forall j :: 0 <= j < |caches| ==> Extends(caches[j], doc.pageObjects))
    }

    /** The next step of `extract_metadata`, after the ones before it, none of which raised. */
    method NextStep(k: nat, ghost m0: Fields, ghost c0: map<int, Page>, ghost t0: seq<Step>, ghost caches: seq<map<int, Page>>)
      returns (o: Outcome, ghost caches': seq<map<int, Page>>)
      requires k == |caches| < |ALL_STEPS| && Begun(m0, c0, t0, caches, Pass)
      modifies this, metadata, doc
      ensures caches' == caches + [doc.pageObjects]
      ensures Begun(m0, c0, t0, caches', o) && metadata.results == old(metadata.results)
    {
      ghost var m, c, t := metadata.candidates, doc.pageObjects, trace;
      o := RunStep(ALL_STEPS[k]);
      caches' := caches + [doc.pageObjects];
      StepHeuristic(ALL_STEPS[k], m, doc.pageObjects);
      Progress(m0, m, metadata.candidates, c0, c, doc.pageObjects, t0, t, trace, k, ALL_STEPS[k], doc.pages);
      RunStepsNext(m0, caches, doc.pageObjects);
      ExtendsAll(caches, c, doc.pageObjects);
    }

    /** After steps that all passed, the next step runs on the store they left. */
    lemma RunStepsNext(m0: Fields, caches: seq<map<int, Page>>, cache: map<int, Page>)
      requires |caches| < |ALL_STEPS| && RunSteps(m0, caches).outcome.Pass?
      ensures (caches + [cache])[..|caches|] == caches
      ensures RunSteps(m0, caches + [cache]) == StepRun(ALL_STEPS[|caches|], RunSteps(m0, caches).fields, cache)
    {
      assert (caches + [cache])[..|caches|] == caches;
    }

    /** Once the steps before the last passed, every step before it did: a raised error
        stops the run for good. */
    lemma {:induction false} PassedBefore(m0: Fields, caches: seq<map<int, Page>>)
      requires 0 < |caches| <= |ALL_STEPS| && RunSteps(m0, caches[..|caches| - 1]).outcome.Pass?
      ensures forall j :: 0 <= j < |caches| ==> RunSteps(m0, caches[..j]).outcome.Pass?
      decreases |caches|
    {
      var n := |caches|;
      if n > 1 {
        var p := caches[..n - 1];
        assert p[..n - 2] == caches[..n - 2];
        PassedBefore(m0, p);
        forall j | 0 <= j < n ensures RunSteps(m0, caches[..j]).outcome.Pass? {
          if j < n - 1 {
            assert caches[..j] == p[..j];
          }
        }
      }
    }

    /** The title from the first page and the three PDF-info steps: steps 0 to 3 of `extract_metadata`, up to the first that raises. */
    method InfoSteps(ghost m0: Fields, ghost c0: map<int, Page>, ghost t0: seq<Step>, ghost caches0: seq<map<int, Page>>)
      returns (o: Outcome, ghost caches: seq<map<int, Page>>)
      requires |caches0| == 0 && Begun(m0, c0, t0, caches0, Pass)
      modifies this, metadata, doc
      ensures 0 < |caches| <= 4 && Begun(m0, c0, t0, caches, o) && metadata.results == old(metadata.results)
      ensures o.Pass? ==> |caches| == 4
      ensures |caches| < 4 ==> o.Fail?
    {
      o, caches := NextStep(0, m0, c0, t0, caches0);
      if o.Fail? {
        return;
      }
      o, caches := NextStep(1, m0, c0, t0, caches);
      if o.Fail? {
        return;
      }
      o, caches := NextStep(2, m0, c0, t0, caches);
      if o.Fail? {
        return;
      }
      o, caches := NextStep(3, m0, c0, t0, caches);
    }

    /** The ISBN, the ISSN and the info page: steps 4 to 6 of `extract_metadata`, up to the first that raises. */
    method IdentifierSteps(ghost m0: Fields, ghost c0: map<int, Page>, ghost t0: seq<Step>, ghost caches0: seq<map<int, Page>>)
      returns (o: Outcome, ghost caches: seq<map<int, Page>>)
      requires |caches0| == 4 && Begun(m0, c0, t0, caches0, Pass)
      modifies this, metadata, doc
      ensures 4 < |caches| <= 7 && Begun(m0, c0, t0, caches, o) && metadata.results == old(metadata.results)
      ensures o.Pass? ==> |caches| == 7
      ensures |caches| < 7 ==> o.Fail?
    {
      o, caches := NextStep(4, m0, c0, t0, caches0);
      if o.Fail? {
        return;
      }
      o, caches := NextStep(5, m0, c0, t0, caches);
      if o.Fail? {
        return;
      }
      o, caches := NextStep(6, m0, c0, t0, caches);
    }

    /** The publisher, the copyright lines and the report prefix: steps 7 to 9 of `extract_metadata`, up to the first that raises. */
    method PageSteps(ghost m0: Fields, ghost c0: map<int, Page>, ghost t0: seq<Step>, ghost caches0: seq<map<int, Page>>)
      returns (o: Outcome, ghost caches: seq<map<int, Page>>)
      requires |caches0| == 7 && Begun(m0, c0, t0, caches0, Pass)
      modifies this, metadata, doc
      ensures 7 < |caches| <= 10 && Begun(m0, c0, t0, caches, o) && metadata.results == old(metadata.results)
      ensures o.Pass? ==> |caches| == 10
      ensures |caches| < 10 ==> o.Fail?
    {
      o, caches := NextStep(7, m0, c0, t0, caches0);
      if o.Fail? {
        return;
      }
      o, caches := NextStep(8, m0, c0, t0, caches);
      if o.Fail? {
        return;
      }
      o, caches := NextStep(9, m0, c0, t0, caches);
    }

    /** The language, the front-page authors and the document type: steps 10 to 12 of `extract_metadata`, up to the first that raises. */
    method FrontSteps(ghost m0: Fields, ghost c0: map<int, Page>, ghost t0: seq<Step>, ghost caches0: seq<map<int, Page>>)
      returns (o: Outcome, ghost caches: seq<map<int, Page>>)
      requires |caches0| == 10 && Begun(m0, c0, t0, caches0, Pass)
      modifies this, metadata, doc
      ensures 10 < |caches| <= 13 && Begun(m0, c0, t0, caches, o) && metadata.results == old(metadata.results)
      ensures o.Pass? ==> |caches| == 13
      ensures |caches| < 13 ==> o.Fail?
    {
      o, caches := NextStep(10, m0, c0, t0, caches0);
      if o.Fail? {
        return;
      }
      o, caches := NextStep(11, m0, c0, t0, caches);
      if o.Fail? {
        return;
      }
      o, caches := NextStep(12, m0, c0, t0, caches);
    }

    /** `extract_metadata`: the thirteen steps in their fixed order, up to the first that raises.
        `caches[k]` is the page cache once step `k` is over; the store is what the steps begun
        make of it, only the last of them can have raised, and every candidate the store gains
        is of one of the kinds the steps add. */
    method ExtractMetadata() returns (o: Outcome, ghost caches: seq<map<int, Page>>)
      requires Valid()
      modifies this, metadata, doc
      ensures 0 < |caches| <= |ALL_STEPS| && Begun(old(metadata.candidates), old(doc.pageObjects), old(trace), caches, o)
      ensures Run(metadata.candidates, o) == RunSteps(old(metadata.candidates), caches)
      ensures forall j :: 0 <= j < |caches| ==> RunSteps(old(metadata.candidates), caches[..j]).outcome.Pass?
      ensures metadata.results == old(metadata.results)
      ensures o.Pass? ==> |caches| == |ALL_STEPS|
      ensures |caches| < |ALL_STEPS| ==> o.Fail?
    {
      ghost var m0, c0, t0 := metadata.candidates, doc.pageObjects, trace;
      AppendsSame(m0, HeuristicTest(doc.pages));
      assert t0 + ALL_STEPS[..0] == t0;
      o, caches := AllSteps(m0, c0, t0);
      PassedBefore(m0, caches);
    }

    /** The four groups of steps, each run only when the one before it passed. */
    method AllSteps(ghost m0: Fields, ghost c0: map<int, Page>, ghost t0: seq<Step>)
      returns (o: Outcome, ghost caches: seq<map<int, Page>>)
      requires Begun(m0, c0, t0, [], Pass)
      modifies this, metadata, doc
      ensures 0 < |caches| <= |ALL_STEPS| && Begun(m0, c0, t0, caches, o) && metadata.results == old(metadata.results)
      ensures o.Pass? ==> |caches| == |ALL_STEPS|
      ensures |caches| < |ALL_STEPS| ==> o.Fail?
    {
      o, caches := InfoSteps(m0, c0, t0, []);
      if o.Fail? {
        return;
      }
      o, caches := IdentifierSteps(m0, c0, t0, caches);
      if o.Fail? {
        return;
      }
      o, caches := PageSteps(m0, c0, t0, caches);
      if o.Fail? {
        return;
      }
      o, caches := FrontSteps(m0, c0, t0, caches);
    }
  }
}
