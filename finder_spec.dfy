// The heuristics of metadata_extract/finder.py as functions: what each step of
// `extract_metadata` adds to the candidate store, given the document's text, its page objects
// and the answers of the services the finder calls.

module FinderSpecs {
  import opened Common
  import opened Strings
  import opened Dicts
  import opened Lists
  import opened Sorting
  import opened Unique
  import opened Candidates
  import opened Arbitration
  import opened Text
  import opened AuthorNames
  import opened Pages
  import opened MeteorDocuments
  import opened InfoPages

  /** The services the finder calls, by what they answer. */
  datatype Oracles = Oracles(
    registry: Option<string -> Result<seq<RegEntry>>>,  // PublisherRegistry.search; None without a registry
    searchDates: string -> Option<(string, int)>,      // search_dates(text, REQUIRE_PARTS=['year']): the first match and its year
    parseYear: string -> Result<int>,                   // dateutil's parse(text).year; Err when it raises
    detectLanguage: string -> Option<string>)          // langdetect.detect(text); None on LangDetectException

  // ---------------------------------------------------------------- the registry

  /** `search_in_registry`: the registry's entries for the name; none when there is no registry
      or when its search raises. */
  function SearchInRegistry(or: Oracles, name: string): (r: seq<RegEntry>)
    ensures or.registry.None? ==> r == []
    ensures or.registry.Some? && or.registry.value(name).Err? ==> r == []
    ensures or.registry.Some? && or.registry.value(name).Ok? ==> r == or.registry.value(name).value
  {
    match or.registry
    case None => []
    case Some(search) => match search(name) case Ok(es) => es case Err(_) => []
  }

  /** A string candidate carrying the registry's entries for its value. */
  function Registered(or: Oracles, name: string, origin: Origin, pageNr: Option<int>): (c: Candidate)
    ensures c.value == Text(name) && c.origin == origin && c.pageNr == pageNr && c.context.None?
    ensures c.regEntries == SearchInRegistry(or, name)
  {
    NewCandidate(Text(name), origin, pageNr, None).(regEntries := SearchInRegistry(or, name))
  }

  // ---------------------------------------------------------------- appending

  /** What a step leaves: the store, and whether it ended normally or raised. */
  datatype Run = Run(fields: Fields, outcome: Outcome)

  function Len(m: Fields, f: string): nat { if f in m then |m[f]| else 0 }

  /** `m'` extends `m`: every list of `m` is a prefix of the same list in `m'`, and every
      candidate beyond it satisfies `p`. */
  predicate Appends(m: Fields, m': Fields, p: (string, Candidate) -> bool)
  {
    && (forall f :: f in m ==> f in m' && m[f] <= m'[f])
    && (forall f, i :: f in m' && Len(m, f) <= i < |m'[f]| ==> p(f, m'[f][i]))
  }

  lemma AppendsSame(m: Fields, p: (string, Candidate) -> bool)
    ensures Appends(m, m, p)
  {
  }

  lemma AppendsAdded(m: Fields, f: string, c: Candidate, p: (string, Candidate) -> bool)
    requires p(f, c)
    ensures Appends(m, Added(m, f, c), p)
  {
  }

  /** Appending twice is appending. */
  lemma AppendsTrans(a: Fields, b: Fields, c: Fields, p: (string, Candidate) -> bool)
    requires Appends(a, b, p) && Appends(b, c, p)
    ensures Appends(a, c, p)
  {
    forall f, i | f in c && Len(a, f) <= i < |c[f]| ensures p(f, c[f][i]) {
      if f in b && i < Len(b, f) {
        assert b[f] <= c[f];
        assert c[f][i] == b[f][i];
      }
    }
  }

  /** Adding a candidate of the kind, then appending from there, appends from the start. */
  lemma AppendsVia(m: Fields, f: string, c: Candidate, r: Fields, p: (string, Candidate) -> bool)
    requires p(f, c) && Appends(Added(m, f, c), r, p)
    ensures Appends(m, r, p)
  {
    AppendsAdded(m, f, c, p);
    AppendsTrans(m, Added(m, f, c), r, p);
  }

  /** A loop over the first `n` pages that stops at the first page whose turn raises. */
  function RunPages(m: Fields, step: (Fields, (int, string)) -> Run, pages: Dict<int, string>, n: nat): Run
    requires n <= |pages|
  {
    if n == 0 then Run(m, Pass)
    else
      var r := RunPages(m, step, pages, n - 1);
      if r.outcome.Fail? then r else step(r.fields, pages[n - 1])
  }

  /** After turns that all passed, the next page gives the next turn. */
  lemma RunPagesNext(m: Fields, step: (Fields, (int, string)) -> Run, pages: Dict<int, string>, i: nat)
    requires i < |pages| && RunPages(m, step, pages, i).outcome.Pass?
    ensures RunPages(m, step, pages, i + 1) == step(RunPages(m, step, pages, i).fields, pages[i])
  {
  }

  /** Once a turn raises, the later pages are not looked at. */
  lemma {:induction false} RunPagesFail(m: Fields, step: (Fields, (int, string)) -> Run, pages: Dict<int, string>, k: nat, n: nat)
    requires k <= n <= |pages| && RunPages(m, step, pages, k).outcome.Fail?
    ensures RunPages(m, step, pages, n) == RunPages(m, step, pages, k)
    decreases n
  {
    if n > k {
      RunPagesFail(m, step, pages, k, n - 1);
    }
  }

  /** Two loops whose turns agree on the first `n` pages agree there. */
  lemma {:induction false} RunPagesSame(m: Fields, step: (Fields, (int, string)) -> Run, step': (Fields, (int, string)) -> Run,
                                        pages: Dict<int, string>, n: nat)
    requires n <= |pages|
    requires forall x: Fields, j :: 0 <= j < n ==> step(x, pages[j]) == step'(x, pages[j])
    ensures RunPages(m, step, pages, n) == RunPages(m, step', pages, n)
  {
    if n > 0 {
      RunPagesSame(m, step, step', pages, n - 1);
    }
  }

  /** A loop whose every turn appends candidates passing `p` appends only such candidates. */
  lemma {:induction false} RunPagesAppends(m: Fields, step: (Fields, (int, string)) -> Run, pages: Dict<int, string>, n: nat,
                                           p: (string, Candidate) -> bool)
    requires n <= |pages|
    requires forall x: Fields, j :: 0 <= j < |pages| ==> Appends(x, step(x, pages[j]).fields, p)
    ensures Appends(m, RunPages(m, step, pages, n).fields, p)
  {
    if n == 0 {
      AppendsSame(m, p);
    } else {
      RunPagesAppends(m, step, pages, n - 1, p);
      var r := RunPages(m, step, pages, n - 1);
      if r.outcome.Pass? {
        AppendsTrans(m, r.fields, step(r.fields, pages[n - 1]).fields, p);
      }
    }
  }

  // ---------------------------------------------------------------- find_title_from_page

  /** The font size and the text of each block, in page order. */
  function SizedTexts(bs: seq<TextBlock>): (r: seq<(real, string)>)
    ensures |r| == |bs| && forall i :: 0 <= i < |bs| ==> r[i] == (bs[i].fontsize, bs[i].text)
  {
    if |bs| == 0 then [] else SizedTexts(bs[..|bs| - 1]) + [(bs[|bs| - 1].fontsize, bs[|bs| - 1].text)]
  }

  /** The texts in the given font size, in page order. */
  function TextsOfSize(items: seq<(real, string)>, size: real): seq<string>
  {
    if |items| == 0 then []
    else TextsOfSize(items[..|items| - 1], size) + (if items[|items| - 1].0 == size then [items[|items| - 1].1] else [])
  }

  /** The `blocks` dict of `find_title_from_page`: each font size, in order of first
      appearance, with its texts. */
  function SizeGroups(items: seq<(real, string)>): Dict<real, seq<string>>
  {
    if |items| == 0 then []
    else
      var d := SizeGroups(items[..|items| - 1]);
      var x := items[|items| - 1];
      Put(d, x.0, Get(d, x.0).GetOr([]) + [x.1])
  }

  /** A size's entry in the dict holds exactly the texts in that size. */
  lemma {:induction false} SizeGroupsAt(items: seq<(real, string)>, size: real)
    ensures Get(SizeGroups(items), size) == if TextsOfSize(items, size) == [] then None else Some(TextsOfSize(items, size))
  {
    if |items| > 0 {
      var pre := items[..|items| - 1];
      var x := items[|items| - 1];
      var d := SizeGroups(pre);
      var v := Get(d, x.0).GetOr([]) + [x.1];
      assert SizeGroups(items) == Put(d, x.0, v);
      assert TextsOfSize(items, size) == TextsOfSize(pre, size) + (if x.0 == size then [x.1] else []);
      SizeGroupsAt(pre, size);
      if x.0 != size {
        PutOther(d, x.0, v, size);
        assert TextsOfSize(items, size) == TextsOfSize(pre, size);
        assert Get(SizeGroups(items), size) == Get(d, size);
      } else {
        assert Get(Put(d, x.0, v), size) == Some(v);
      }
    }
  }

  lemma {:induction false} SizeGroupsDistinct(items: seq<(real, string)>)
    ensures DistinctKeys(SizeGroups(items))
  {
    if |items| > 0 {
      var pre := items[..|items| - 1];
      var x := items[|items| - 1];
      SizeGroupsDistinct(pre);
      DistinctPut(SizeGroups(pre), x.0, Get(SizeGroups(pre), x.0).GetOr([]) + [x.1]);
    }
  }

  /** The joined texts of a group have letters. */
  predicate Lettered(g: (real, seq<string>)) { !HasNoLetters(Join(" ", g.1)) }

  /** The sort key of `find_title_from_page`: the negated font size. */
  function NegSize(g: (real, seq<string>)): real { -g.0 }

  function SizeOrder(items: seq<(real, string)>): seq<(real, seq<string>)>
  {
    Sort(SizeGroups(items), NegSize, false)
  }

  /** What `find_title_from_page` takes as the title: the joined texts of the first group, by
      falling font size, whose text has letters, with whitespace cleaned. */
  function FrontTitle(items: seq<(real, string)>): Option<string>
  {
    match FirstIndex(SizeOrder(items), Lettered)
    case None => None
    case Some(i) => Some(CleanWhitespace(Join(" ", SizeOrder(items)[i].1)))
  }

  /** Each size that occurs is a group of the sorted dict. */
  lemma GroupOfSize(items: seq<(real, string)>, size: real)
    requires TextsOfSize(items, size) != []
    ensures (size, TextsOfSize(items, size)) in SizeOrder(items)
  {
    SizeGroupsAt(items, size);
    SortPermutation(SizeGroups(items), NegSize, false);
    assert (size, TextsOfSize(items, size)) in multiset(SizeGroups(items));
  }

  /** Each group of the sorted dict holds the texts of its size. */
  lemma SortedGroup(items: seq<(real, string)>, i: nat)
    requires i < |SizeOrder(items)|
    ensures TextsOfSize(items, SizeOrder(items)[i].0) != []
    ensures SizeOrder(items)[i].1 == TextsOfSize(items, SizeOrder(items)[i].0)
  {
    var d := SizeGroups(items);
    var g := SizeOrder(items)[i];
    assert g in d;
    var j :| 0 <= j < |d| && d[j] == g;
    SizeGroupsDistinct(items);
    GetDistinct(d, j);
    SizeGroupsAt(items, g.0);
  }

  /** A title is the cleaned text of some font size whose text has letters. */
  lemma FrontTitleFound(items: seq<(real, string)>)
    requires FrontTitle(items).Some?
    ensures exists size :: TextsOfSize(items, size) != [] && Lettered((size, TextsOfSize(items, size)))
              && FrontTitle(items).value == CleanWhitespace(Join(" ", TextsOfSize(items, size)))
  {
    var i := FirstIndex(SizeOrder(items), Lettered).value;
    SortedGroup(items, i);
    var size := SizeOrder(items)[i].0;
    assert SizeOrder(items)[i] == (size, TextsOfSize(items, size));
  }

  /** When some font size has letters, there is a title, and it is the text of the largest
      such size. */
  lemma FrontTitleLargest(items: seq<(real, string)>, size: real)
    requires TextsOfSize(items, size) != [] && Lettered((size, TextsOfSize(items, size)))
    requires forall s :: s > size && TextsOfSize(items, s) != [] ==> !Lettered((s, TextsOfSize(items, s)))
    ensures FrontTitle(items) == Some(CleanWhitespace(Join(" ", TextsOfSize(items, size))))
  {
    var sorted := SizeOrder(items);
    GroupOfSize(items, size);
    var j :| 0 <= j < |sorted| && sorted[j] == (size, TextsOfSize(items, size));
    assert Lettered(sorted[j]);
    var i := FirstIndex(sorted, Lettered).value;
    assert i <= j;
    SortedGroup(items, i);
    var s := sorted[i].0;
    assert sorted[i] == (s, TextsOfSize(items, s));
    assert Lettered((s, TextsOfSize(items, s)));
    assert s <= size;
    if i < j {
      SortOrdered(SizeGroups(items), NegSize, false);
      assert !Before(NegSize, false, sorted[j], sorted[i]);
      assert size <= s;
    }
    assert s == size;
    assert FrontTitle(items) == Some(CleanWhitespace(Join(" ", sorted[i].1)));
  }

  /** A title candidate found on the front page. */
  predicate FrontPageTitle(f: string, c: Candidate) { f == "title" && c.origin == FRONT_PAGE }

  /** `find_title_from_page`, given the page objects after the step: ValueError when the first
      page has no object; otherwise the front-page title, if any, is added. */
  function TitleFromPageRun(m: Fields, objs: map<int, Page>): Run
  {
    if 1 !in objs then Run(m, Fail("ValueError"))
    else match FrontTitle(SizedTexts(objs[1].textBlocks))
      case None => Run(m, Pass)
      case Some(t) => Run(Added(m, "title", NewCandidate(Text(t), FRONT_PAGE, None, None)), Pass)
  }

  /** The step adds at most a front-page title. */
  lemma TitleFromPageAppends(m: Fields, objs: map<int, Page>)
    ensures Appends(m, TitleFromPageRun(m, objs).fields, FrontPageTitle)
  {
    if 1 in objs && FrontTitle(SizedTexts(objs[1].textBlocks)).Some? {
      var t := FrontTitle(SizedTexts(objs[1].textBlocks)).value;
      AppendsAdded(m, "title", NewCandidate(Text(t), FRONT_PAGE, None, None), FrontPageTitle);
    }
  }

  // ---------------------------------------------------------------- PDF info

  /** `self.doc.pdfinfo[key]`: TypeError without PDF info, KeyError without the key. */
  function InfoValue(info: Option<map<string, string>>, key: string): (r: Result<string>)
    ensures r.Ok? <==> info.Some? && key in info.value
    ensures r.Ok? ==> r.value == info.value[key]
    ensures info.None? ==> r == Err("TypeError")
    ensures info.Some? && key !in info.value ==> r == Err("KeyError")
  {
    match info
    case None => Err("TypeError")
    case Some(d) => if key in d then Ok(d[key]) else Err("KeyError")
  }

  /** `find_in_pages(name, self.doc.pages)`, with its default of three pages at most. */
  function FoundOnPage(name: string, pages: Dict<int, string>): Result<nat>
  {
    PageSearch(OnPage(name), pages, 0, Min(|pages|, 3))
  }

  /** A page number found for a name is among the first three pages, the name occurs on that
      page, and every page before it is present and does not hold the name. */
  lemma FoundOnPageSpec(name: string, pages: Dict<int, string>)
    requires FoundOnPage(name, pages).Ok? && FoundOnPage(name, pages).value > 0
    ensures var n := FoundOnPage(name, pages).value;
      && 1 <= n <= 3 && n <= |pages| && Get(pages, n).Some? && TitleOnPage(name, Get(pages, n).value)
      && forall q :: 1 <= q < n ==> Get(pages, q).Some? && !TitleOnPage(name, Get(pages, q).value)
  {
    var n := FoundOnPage(name, pages).value;
    PageSearchFound(OnPage(name), pages, 0, Min(|pages|, 3));
    forall q | 1 <= q < n ensures Get(pages, q).Some? && !TitleOnPage(name, Get(pages, q).value) {
      PageSearchSkipped(OnPage(name), pages, 0, Min(|pages|, 3), q);
    }
  }

  /** A title candidate from the PDF info, found on one of the first three pages. */
  predicate InfoTitle(f: string, c: Candidate)
  {
    f == "title" && c.origin == PDFINFO && c.value.Text? && c.pageNr.Some? && 1 <= c.pageNr.value <= 3
  }

  /** `get_title_from_info`: a non-empty PDF-info title is added when it is found on a page. */
  function TitleFromInfoRun(m: Fields, info: Option<map<string, string>>, pages: Dict<int, string>): Run
  {
    match InfoValue(info, "title")
    case Err(e) => Run(m, Fail(e))
    case Ok(title) =>
      if title == "" then Run(m, Pass)
      else match FoundOnPage(title, pages)
        case Err(e) => Run(m, Fail(e))
        case Ok(n) =>
          if n > 0 then Run(Added(m, "title", NewCandidate(Text(title), PDFINFO, Some(n), None)), Pass)
          else Run(m, Pass)
  }

  /** The step adds at most the PDF-info title, on the first page among the first three that
      holds it. */
  lemma TitleFromInfoSpec(m: Fields, info: Option<map<string, string>>, pages: Dict<int, string>)
    ensures Appends(m, TitleFromInfoRun(m, info, pages).fields, InfoTitle)
    ensures TitleFromInfoRun(m, info, pages).fields != m ==>
              && info.Some? && "title" in info.value && info.value["title"] != ""
              && FoundOnPage(info.value["title"], pages).Ok?
              && TitleFromInfoRun(m, info, pages).fields
                 == Added(m, "title", NewCandidate(Text(info.value["title"]), PDFINFO, Some(FoundOnPage(info.value["title"], pages).value), None))
  {
    if info.Some? && "title" in info.value && info.value["title"] != "" {
      var title := info.value["title"];
      if FoundOnPage(title, pages).Ok? && FoundOnPage(title, pages).value > 0 {
        FoundOnPageSpec(title, pages);
        AppendsAdded(m, "title", NewCandidate(Text(title), PDFINFO, Some(FoundOnPage(title, pages).value), None), InfoTitle);
      }
    }
  }

  /** Some stop word occurs in the lower-cased text. */
  predicate HasStopword(stopwords: seq<string>, s: string)
  {
    exists k :: 0 <= k < |stopwords| && Contains(Lower(s), stopwords[k])
  }

  /** An author candidate from the PDF info, found on one of the first three pages. */
  predicate InfoAuthor(f: string, c: Candidate)
  {
    f == "author" && c.origin == PDFINFO && c.value.Person? && c.pageNr.Some? && 1 <= c.pageNr.value <= 3
  }

  /** The loop of `get_author_from_info` from the `i`-th name match on: each match is searched
      for in the pages, and, unless the info's author holds a stop word, added as an author when
      it is found. */
  function InfoAuthorsFrom(m: Fields, author: string, matches: seq<string>, i: nat, stopwords: seq<string>,
                           pages: Dict<int, string>): Run
    decreases |matches| - i
  {
    if i >= |matches| then Run(m, Pass)
    else match FoundOnPage(matches[i], pages)
      case Err(e) => Run(m, Fail(e))
      case Ok(n) =>
        if HasStopword(stopwords, author) || n == 0 then InfoAuthorsFrom(m, author, matches, i + 1, stopwords, pages)
        else match CreateAuthorDict(matches[i])
          case Err(e) => Run(m, Fail(e))
          case Ok(v) =>
            InfoAuthorsFrom(Added(m, "author", NewCandidate(v, PDFINFO, Some(n), None)), author, matches, i + 1, stopwords, pages)
  }

  /** `get_author_from_info`. */
  function AuthorFromInfoRun(m: Fields, info: Option<map<string, string>>, pats: Patterns, stopwords: seq<string>,
                             pages: Dict<int, string>): Run
  {
    match InfoValue(info, "author")
    case Err(e) => Run(m, Fail(e))
    case Ok(author) =>
      if author == "" then Run(m, Pass)
      else InfoAuthorsFrom(m, author, pats.nameFindAll(author), 0, stopwords, pages)
  }

  /** The author candidate a name match gives: the person of the match, on the first of the
      first three pages that holds it; none when no such page holds it or it has no word. */
  function MatchCandidate(name: string, pages: Dict<int, string>): Option<Candidate>
  {
    match FoundOnPage(name, pages)
    case Err(_) => None
    case Ok(n) =>
      if n == 0 then None
      else match CreateAuthorDict(name)
        case Err(_) => None
        case Ok(v) => Some(NewCandidate(v, PDFINFO, Some(n), None))
  }

  /** An author candidate that one of the name matches gives. */
  predicate MatchedAuthor(matches: seq<string>, pages: Dict<int, string>, f: string, c: Candidate)
  {
    f == "author" && exists k :: 0 <= k < |matches| && MatchCandidate(matches[k], pages) == Some(c)
  }

  function MatchedAuthorTest(matches: seq<string>, pages: Dict<int, string>): (string, Candidate) -> bool
  {
    (f: string, c: Candidate) => MatchedAuthor(matches, pages, f, c)
  }

  /** Each author added is a person from the PDF info found on one of the first three pages,
      and it is the candidate one of the name matches gives. */
  lemma {:induction false} InfoAuthorsAppends(m: Fields, author: string, matches: seq<string>, i: nat,
                                              stopwords: seq<string>, pages: Dict<int, string>)
    ensures Appends(m, InfoAuthorsFrom(m, author, matches, i, stopwords, pages).fields, InfoAuthor)
    ensures Appends(m, InfoAuthorsFrom(m, author, matches, i, stopwords, pages).fields, MatchedAuthorTest(matches, pages))
    decreases |matches| - i
  {
    var q := MatchedAuthorTest(matches, pages);
    if i >= |matches| {
      AppendsSame(m, InfoAuthor);
      AppendsSame(m, q);
    } else if FoundOnPage(matches[i], pages).Ok? {
      var n := FoundOnPage(matches[i], pages).value;
      if HasStopword(stopwords, author) || n == 0 {
        InfoAuthorsAppends(m, author, matches, i + 1, stopwords, pages);
      } else if CreateAuthorDict(matches[i]).Ok? {
        var c := NewCandidate(CreateAuthorDict(matches[i]).value, PDFINFO, Some(n), None);
        InfoAuthorsAppends(Added(m, "author", c), author, matches, i + 1, stopwords, pages);
        InfoAuthorAddStep(m, author, matches, i, stopwords, pages, n, c);
      } else {
        AppendsSame(m, InfoAuthor);
        AppendsSame(m, q);
      }
    } else {
      AppendsSame(m, InfoAuthor);
      AppendsSame(m, q);
    }
  }

  /** The turn of `InfoAuthorsFrom` that adds the candidate `c` of the `i`-th match, given what
      the later turns add. */
  lemma InfoAuthorAddStep(m: Fields, author: string, matches: seq<string>, i: nat,
                          stopwords: seq<string>, pages: Dict<int, string>, n: int, c: Candidate)
    requires i < |matches| && FoundOnPage(matches[i], pages) == Ok(n) && n > 0 && !HasStopword(stopwords, author)
    requires CreateAuthorDict(matches[i]).Ok? && c == NewCandidate(CreateAuthorDict(matches[i]).value, PDFINFO, Some(n), None)
    requires var m1 := Added(m, "author", c);
             var r := InfoAuthorsFrom(m1, author, matches, i + 1, stopwords, pages).fields;
             Appends(m1, r, InfoAuthor) && Appends(m1, r, MatchedAuthorTest(matches, pages))
    ensures var r := InfoAuthorsFrom(m, author, matches, i, stopwords, pages).fields;
            Appends(m, r, InfoAuthor) && Appends(m, r, MatchedAuthorTest(matches, pages))
  {
    var m1 := Added(m, "author", c);
    var r := InfoAuthorsFrom(m1, author, matches, i + 1, stopwords, pages).fields;
    assert InfoAuthorsFrom(m, author, matches, i, stopwords, pages).fields == r;
    FoundOnPageSpec(matches[i], pages);
    assert MatchCandidate(matches[i], pages) == Some(c);
    AppendsVia(m, "author", c, r, InfoAuthor);
    AppendsVia(m, "author", c, r, MatchedAuthorTest(matches, pages));
  }

  /** The converse: when the info's author holds no stop word and the loop runs through, every
      name match is searched for, and each one found on a page is added as an author. */
  lemma {:induction false} InfoAuthorsAdded(m: Fields, author: string, matches: seq<string>, i: nat,
                                            stopwords: seq<string>, pages: Dict<int, string>, k: nat)
    requires !HasStopword(stopwords, author) && i <= k < |matches|
    requires InfoAuthorsFrom(m, author, matches, i, stopwords, pages).outcome.Pass?
    ensures FoundOnPage(matches[k], pages).Ok?
    ensures FoundOnPage(matches[k], pages).value > 0 ==>
              var r := InfoAuthorsFrom(m, author, matches, i, stopwords, pages).fields;
              MatchCandidate(matches[k], pages).Some? && "author" in r && MatchCandidate(matches[k], pages).value in r["author"]
    decreases |matches| - i
  {
    var n := FoundOnPage(matches[i], pages).value;
    if n == 0 {
      if k > i {
        InfoAuthorsAdded(m, author, matches, i + 1, stopwords, pages, k);
      }
    } else {
      var c := NewCandidate(CreateAuthorDict(matches[i]).value, PDFINFO, Some(n), None);
      var m1 := Added(m, "author", c);
      if k > i {
        InfoAuthorsAdded(m1, author, matches, i + 1, stopwords, pages, k);
      } else {
        InfoAuthorsAppends(m1, author, matches, i + 1, stopwords, pages);
        var r := InfoAuthorsFrom(m1, author, matches, i + 1, stopwords, pages).fields;
        assert m1["author"] <= r["author"];
        assert r["author"][|m1["author"]| - 1] == c;
      }
    }
  }

  /** When the info's author holds a stop word nothing is added, although the matches are
      still searched for (and a missing page still raises KeyError). */
  lemma {:induction false} InfoAuthorsStopword(m: Fields, author: string, matches: seq<string>, i: nat,
                                               stopwords: seq<string>, pages: Dict<int, string>)
    requires HasStopword(stopwords, author)
    ensures InfoAuthorsFrom(m, author, matches, i, stopwords, pages).fields == m
    decreases |matches| - i
  {
    if i < |matches| && FoundOnPage(matches[i], pages).Ok? {
      InfoAuthorsStopword(m, author, matches, i + 1, stopwords, pages);
    }
  }

  /** The step only adds authors from the PDF info, and none when the author holds a stop word. */
  lemma AuthorFromInfoSpec(m: Fields, info: Option<map<string, string>>, pats: Patterns, stopwords: seq<string>,
                           pages: Dict<int, string>)
    ensures Appends(m, AuthorFromInfoRun(m, info, pats, stopwords, pages).fields, InfoAuthor)
    ensures info.Some? && "author" in info.value && HasStopword(stopwords, info.value["author"]) ==>
              AuthorFromInfoRun(m, info, pats, stopwords, pages).fields == m
  {
    if info.Some? && "author" in info.value && info.value["author"] != "" {
      var author := info.value["author"];
      InfoAuthorsAppends(m, author, pats.nameFindAll(author), 0, stopwords, pages);
      if HasStopword(stopwords, author) {
        InfoAuthorsStopword(m, author, pats.nameFindAll(author), 0, stopwords, pages);
      }
    } else {
      AppendsSame(m, InfoAuthor);
    }
  }

  /** The year `get_year_from_info` reads: from characters 2 to 14 of the modification date,
      else of the creation date; none when both are empty. */
  function InfoYear(info: Option<map<string, string>>, or: Oracles): Result<Option<int>>
  {
    match InfoValue(info, "modDate")
    case Err(e) => Err(e)
    case Ok(md) =>
      if md != "" then
        match or.parseYear(Drop(Take(md, 14), 2)) case Ok(y) => Ok(Some(y)) case Err(e) => Err(e)
      else match InfoValue(info, "creationDate")
        case Err(e) => Err(e)
        case Ok(cd) =>
          if cd != "" then
            match or.parseYear(Drop(Take(cd, 14), 2)) case Ok(y) => Ok(Some(y)) case Err(e) => Err(e)
          else Ok(None)
  }

  predicate MentionsYear(y: int, page: (int, string)) { Contains(page.1, IntToString(y)) }

  function YearTest(y: int): ((int, string)) -> bool { (page: (int, string)) => MentionsYear(y, page) }

  /** The first page, in the order of the pages dict, whose text holds the year; 0 for none. */
  function YearPage(pages: Dict<int, string>, y: int): int
  {
    match FirstIndex(pages, YearTest(y))
    case None => 0
    case Some(i) => pages[i].0
  }

  /** A year candidate from the PDF info. */
  predicate InfoYearCandidate(f: string, c: Candidate)
  {
    f == "year" && c.origin == PDFINFO && c.value.Number? && c.pageNr.Some? && c.pageNr.value > 0
  }

  /** `get_year_from_info`. */
  function YearFromInfoRun(m: Fields, info: Option<map<string, string>>, or: Oracles, pages: Dict<int, string>): Run
  {
    match InfoYear(info, or)
    case Err(e) => Run(m, Fail(e))
    case Ok(None) => Run(m, Pass)
    case Ok(Some(y)) =>
      var n := YearPage(pages, y);
      if n > 0 then Run(Added(m, "year", NewCandidate(Number(y), PDFINFO, Some(n), None)), Pass) else Run(m, Pass)
  }

  /** A year is added only with the first page of the dict whose text holds it. */
  lemma YearFromInfoSpec(m: Fields, info: Option<map<string, string>>, or: Oracles, pages: Dict<int, string>)
    ensures Appends(m, YearFromInfoRun(m, info, or, pages).fields, InfoYearCandidate)
    ensures YearFromInfoRun(m, info, or, pages).fields != m ==>
              && InfoYear(info, or).Ok? && InfoYear(info, or).value.Some?
              && var y := InfoYear(info, or).value.value;
                 exists i :: 0 <= i < |pages| && pages[i].0 > 0 && Contains(pages[i].1, IntToString(y))
                   && (forall j :: 0 <= j < i ==> !Contains(pages[j].1, IntToString(y)))
                   && YearFromInfoRun(m, info, or, pages).fields == Added(m, "year", NewCandidate(Number(y), PDFINFO, Some(pages[i].0), None))
  {
    if InfoYear(info, or).Ok? && InfoYear(info, or).value.Some? {
      var y := InfoYear(info, or).value.value;
      var n := YearPage(pages, y);
      if n > 0 {
        var i := FirstIndex(pages, YearTest(y)).value;
        assert MentionsYear(y, pages[i]);
        AppendsAdded(m, "year", NewCandidate(Number(y), PDFINFO, Some(n), None), InfoYearCandidate);
      } else {
        AppendsSame(m, InfoYearCandidate);
      }
    } else {
      AppendsSame(m, InfoYearCandidate);
    }
  }

  // ---------------------------------------------------------------- find_isxn

  /** Several `add_candidate(field, c)` calls in a row. */
  function AddAll(m: Fields, field: string, cs: seq<Candidate>): Fields
  {
    if |cs| == 0 then m else Added(AddAll(m, field, cs[..|cs| - 1]), field, cs[|cs| - 1])
  }

  /** The candidates go last in the field's list, in order. */
  lemma {:induction false} AddAllList(m: Fields, field: string, cs: seq<Candidate>)
    ensures cs == [] ==> AddAll(m, field, cs) == m
    ensures cs != [] ==> AddAll(m, field, cs) == m[field := (if field in m then m[field] else []) + cs]
  {
    if |cs| > 0 {
      var pre := cs[..|cs| - 1];
      AddAllList(m, field, pre);
      var l := if field in m then m[field] else [];
      if pre == [] {
        assert cs == [cs[0]];
      } else {
        assert (l + pre) + [cs[|cs| - 1]] == l + cs;
      }
    }
  }

  lemma AppendsAddAll(m: Fields, field: string, cs: seq<Candidate>, p: (string, Candidate) -> bool)
    requires forall k :: 0 <= k < |cs| ==> p(field, cs[k])
    ensures Appends(m, AddAll(m, field, cs), p)
  {
    AddAllList(m, field, cs);
  }

  /** The candidate `find_isxn` makes of a value found on page `number`. */
  function IsxnCandidateOf(number: int): ((string, string)) -> Candidate
  {
    (v: (string, string)) => NewCandidate(Text(v.0), PAGE, Some(number), Some(v.1))
  }

  /** The values `Page.find_isxn` finds on a page object. */
  function PageIsxns(p: Page, id: Identifier): seq<(string, string)>
  {
    p.IsxnValues(id, p.IsxnBlocks(id))
  }

  /** `find_isxn` on one page: a page whose text mentions the identifier is asked for its
      values (ValueError when it has no page object), and each value is added with its context. */
  function IsxnPage(m: Fields, id: Identifier, page: (int, string), objs: map<int, Page>): Run
  {
    if !Contains(page.1, IdentifierName(id)) then Run(m, Pass)
    else if page.0 !in objs then Run(m, Fail("ValueError"))
    else Run(AddAll(m, IdentifierName(id), Map(PageIsxns(objs[page.0], id), IsxnCandidateOf(page.0))), Pass)
  }

  function IsxnStep(id: Identifier, objs: map<int, Page>): (Fields, (int, string)) -> Run
  {
    (m: Fields, page: (int, string)) => IsxnPage(m, id, page, objs)
  }

  /** `find_isxn`.  The page objects are those of the cache once the loop is left: each page the
      loop asks for is loaded by then. */
  function IsxnRun(m: Fields, id: Identifier, pages: Dict<int, string>, objs: map<int, Page>): Run
  {
    RunPages(m, IsxnStep(id, objs), pages, |pages|)
  }

  /** The pages among the first `n` that the loop asks for a page object have one. */
  predicate IsxnLoaded(id: Identifier, pages: Dict<int, string>, objs: map<int, Page>, n: nat)
    requires n <= |pages|
  {
    forall j :: 0 <= j < n && Contains(pages[j].1, IdentifierName(id)) ==> pages[j].0 in objs
  }


  /** Pages loaded later do not change what the loop did with the pages before. */
  lemma IsxnStable(m: Fields, id: Identifier, pages: Dict<int, string>, objs: map<int, Page>, objs': map<int, Page>, n: nat)
    requires n <= |pages| && IsxnLoaded(id, pages, objs, n) && Extends(objs, objs')
    ensures RunPages(m, IsxnStep(id, objs'), pages, n) == RunPages(m, IsxnStep(id, objs), pages, n)
  {
    forall x: Fields, j | 0 <= j < n ensures IsxnStep(id, objs')(x, pages[j]) == IsxnStep(id, objs)(x, pages[j]) {
    }
    RunPagesSame(m, IsxnStep(id, objs'), IsxnStep(id, objs), pages, n);
  }

  /** One more value makes the last candidate of the identifier's list. */
  lemma IsxnValuesStep(m: Fields, field: string, t: seq<(string, string)>, k: nat, number: int)
    requires k < |t|
    ensures AddAll(m, field, Map(t[..k + 1], IsxnCandidateOf(number)))
            == Added(AddAll(m, field, Map(t[..k], IsxnCandidateOf(number))), field, IsxnCandidateOf(number)(t[k]))
  {
    assert t[..k + 1][..k] == t[..k];
    var cs := Map(t[..k + 1], IsxnCandidateOf(number));
    assert cs[..|cs| - 1] == Map(t[..k], IsxnCandidateOf(number));
  }

  /** One more page of `find_isxn`, read with the cache as it stands after that page. */
  lemma IsxnNext(m0: Fields, id: Identifier, pages: Dict<int, string>, objs: map<int, Page>, objs': map<int, Page>,
                 before: Fields, i: nat, r: Run)
    requires i < |pages| && IsxnLoaded(id, pages, objs, i) && Extends(objs, objs')
    requires RunPages(m0, IsxnStep(id, objs), pages, i) == Run(before, Pass)
    requires IsxnPage(before, id, pages[i], objs') == r
    ensures RunPages(m0, IsxnStep(id, objs'), pages, i + 1) == r
    ensures r.outcome.Pass? ==> IsxnLoaded(id, pages, objs', i + 1)
  {
    IsxnStable(m0, id, pages, objs, objs', i);
    if r.outcome.Pass? {
      IsxnLoadedNext(id, pages, objs, objs', i);
    }
  }

  lemma IsxnLoadedNext(id: Identifier, pages: Dict<int, string>, objs: map<int, Page>, objs': map<int, Page>, i: nat)
    requires i < |pages| && IsxnLoaded(id, pages, objs, i) && Extends(objs, objs')
    requires Contains(pages[i].1, IdentifierName(id)) ==> pages[i].0 in objs'
    ensures IsxnLoaded(id, pages, objs', i + 1)
  {
    forall j | 0 <= j < i + 1 && Contains(pages[j].1, IdentifierName(id)) ensures pages[j].0 in objs' {
      if j < i {
        var k := pages[j].0;
        assert k in objs && objs[k] == objs[k];
      }
    }
  }

  lemma ExtendsTrans(a: map<int, Page>, b: map<int, Page>, c: map<int, Page>)
    requires Extends(a, b) && Extends(b, c)
    ensures Extends(a, c)
  {
  }

  /** Caches that all the cache `b` extends, the cache `c` extends too, and `c` itself. */
  lemma ExtendsAll(caches: seq<map<int, Page>>, b: map<int, Page>, c: map<int, Page>)
    requires (forall j :: 0 <= j < |caches| ==> Extends(caches[j], b)) && Extends(b, c)
    ensures forall j :: 0 <= j < |caches| + 1 ==> Extends((caches + [c])[j], c)
  {
    forall j | 0 <= j < |caches| + 1 ensures Extends((caches + [c])[j], c) {
      if j < |caches| {
        assert (caches + [c])[j] == caches[j];
        ExtendsTrans(caches[j], b, c);
      }
    }
  }

  /** An identifier candidate read on a page that mentions the identifier, with a context. */
  predicate IsxnCandidate(id: Identifier, pages: Dict<int, string>, f: string, c: Candidate)
  {
    && f == IdentifierName(id) && c.origin == PAGE && c.value.Text? && c.context.Some? && c.pageNr.Some?
    && exists i :: 0 <= i < |pages| && pages[i].0 == c.pageNr.value && Contains(pages[i].1, IdentifierName(id))
  }

  function IsxnTest(id: Identifier, pages: Dict<int, string>): (string, Candidate) -> bool
  {
    (f: string, c: Candidate) => IsxnCandidate(id, pages, f, c)
  }

  lemma IsxnPageAppends(m: Fields, id: Identifier, pages: Dict<int, string>, objs: map<int, Page>, i: nat)
    requires i < |pages|
    ensures Appends(m, IsxnPage(m, id, pages[i], objs).fields, IsxnTest(id, pages))
  {
    var p := IsxnTest(id, pages);
    var number := pages[i].0;
    if Contains(pages[i].1, IdentifierName(id)) && number in objs {
      var cs := Map(PageIsxns(objs[number], id), IsxnCandidateOf(number));
      forall k | 0 <= k < |cs| ensures p(IdentifierName(id), cs[k]) {
        assert IsxnCandidate(id, pages, IdentifierName(id), cs[k]);
      }
      AppendsAddAll(m, IdentifierName(id), cs, p);
    } else {
      AppendsSame(m, p);
    }
  }

  /** Each candidate `find_isxn` adds is a value of the identifier, read with its context on a
      page whose text mentions the identifier. */
  lemma IsxnAppends(m: Fields, id: Identifier, pages: Dict<int, string>, objs: map<int, Page>)
    ensures Appends(m, IsxnRun(m, id, pages, objs).fields, IsxnTest(id, pages))
  {
    forall x: Fields, j | 0 <= j < |pages| ensures Appends(x, IsxnStep(id, objs)(x, pages[j]).fields, IsxnTest(id, pages)) {
      IsxnPageAppends(x, id, pages, objs, j);
    }
    RunPagesAppends(m, IsxnStep(id, objs), pages, |pages|, IsxnTest(id, pages));
  }

  /** A page that does not mention the identifier adds nothing; one that does adds exactly the
      values its page object finds, in order, and nothing to any other field. */
  lemma IsxnPageSpec(m: Fields, id: Identifier, page: (int, string), objs: map<int, Page>)
    ensures !Contains(page.1, IdentifierName(id)) ==> IsxnPage(m, id, page, objs) == Run(m, Pass)
    ensures Contains(page.1, IdentifierName(id)) && page.0 in objs ==>
              var cs := Map(PageIsxns(objs[page.0], id), IsxnCandidateOf(page.0));
              IsxnPage(m, id, page, objs).fields == if cs == [] then m else m[IdentifierName(id) := (if IdentifierName(id) in m then m[IdentifierName(id)] else []) + cs]
  {
    if Contains(page.1, IdentifierName(id)) && page.0 in objs {
      AddAllList(m, IdentifierName(id), Map(PageIsxns(objs[page.0], id), IsxnCandidateOf(page.0)));
    }
  }

  // ---------------------------------------------------------------- read_info_page

  /** The page `read_info_page` reads as the info page: none when no page holds a keyword;
      the errors of `find_page_number`, of a document without a PDF, and of a page the PDF does
      not have. */
  function InfoPageSource(pages: Dict<int, string>, keywords: seq<string>, pdf: Option<PdfDoc>): Result<Option<(int, seq<RawBlock>)>>
  {
    match PageNumber(pages, keywords)
    case Err(e) => Err(e)
    case Ok(n) =>
      if n == 0 then Ok(None)
      else if pdf.None? then Err("AttributeError")
      else if !(1 <= n <= |pdf.value.pages|) then Err("ValueError")
      else Ok(Some((n, pdf.value.pages[n - 1].blocks)))
  }

  /** The authors of the info page from the `i`-th name on, each split into first and last name;
      a name without any word raises IndexError. */
  function InfoNamesFrom(m: Fields, number: int, names: seq<string>, i: nat): Run
    decreases |names| - i
  {
    if i >= |names| then Run(m, Pass)
    else match CreateAuthorDict(names[i])
      case Err(e) => Run(m, Fail(e))
      case Ok(v) => InfoNamesFrom(Added(m, "author", NewCandidate(v, INFO_PAGE, Some(number), None)), number, names, i + 1)
  }

  /** The title and the publisher of the info page `number`, each added when it is non-empty. */
  function InfoPageHead(m: Fields, or: Oracles, number: int, title: Option<string>, publisher: Option<string>): Fields
  {
    var m1 := if title.Some? && title.value != "" then Added(m, "title", NewCandidate(Text(title.value), INFO_PAGE, Some(number), None)) else m;
    if publisher.Some? && publisher.value != "" then Added(m1, "publisher", Registered(or, publisher.value, INFO_PAGE, Some(number))) else m1
  }

  /** What `read_info_page` adds once the info page `number` is read: its title and its
      publisher, then each of its authors. */
  function InfoPageRun(m: Fields, or: Oracles, number: int, title: Option<string>, publisher: Option<string>,
                       authors: Option<seq<string>>): Run
  {
    var m2 := InfoPageHead(m, or, number, title, publisher);
    if authors.Some? then InfoNamesFrom(m2, number, authors.value, 0) else Run(m2, Pass)
  }

  /** `read_info_page`: nothing beyond the error when the info page cannot be found or read, and
      nothing at all when no page is one; a page without text blocks raises ValueError; else
      what `InfoPageRun` adds with the values the page yields. */
  function ReadInfoPageRun(m: Fields, or: Oracles, pats: Patterns, keywords: seq<string>, pages: Dict<int, string>,
                           pdf: Option<PdfDoc>): Run
  {
    match InfoPageSource(pages, keywords, pdf)
    case Err(e) => Run(m, Fail(e))
    case Ok(None) => Run(m, Pass)
    case Ok(Some(src)) =>
      if |KeptSpans(src.1)| == 0 then Run(m, Fail("ValueError"))
      else
        var v := InfoValuesOf(src.1, keywords, pats);
        InfoPageRun(m, or, src.0, v.0, v.1, v.2)
  }

  /** A title, publisher or author read on the info page `number`. */
  predicate InfoPageCandidate(number: int, f: string, c: Candidate)
  {
    && (f == "title" || f == "publisher" || f == "author")
    && c.origin == INFO_PAGE && c.pageNr == Some(number)
  }

  function InfoPageTest(number: int): (string, Candidate) -> bool
  {
    (f: string, c: Candidate) => InfoPageCandidate(number, f, c)
  }

  lemma {:induction false} InfoNamesAppends(m: Fields, number: int, names: seq<string>, i: nat)
    ensures Appends(m, InfoNamesFrom(m, number, names, i).fields, InfoPageTest(number))
    decreases |names| - i
  {
    if i < |names| && CreateAuthorDict(names[i]).Ok? {
      var c := NewCandidate(CreateAuthorDict(names[i]).value, INFO_PAGE, Some(number), None);
      AppendsAdded(m, "author", c, InfoPageTest(number));
      InfoNamesAppends(Added(m, "author", c), number, names, i + 1);
      AppendsTrans(m, Added(m, "author", c), InfoNamesFrom(Added(m, "author", c), number, names, i + 1).fields, InfoPageTest(number));
    } else {
      AppendsSame(m, InfoPageTest(number));
    }
  }

  lemma InfoPageHeadSpec(m: Fields, or: Oracles, number: int, title: Option<string>, publisher: Option<string>)
    ensures Appends(m, InfoPageHead(m, or, number, title, publisher), InfoPageTest(number))
    ensures Len(InfoPageHead(m, or, number, title, publisher), "title") <= Len(m, "title") + 1
    ensures Len(InfoPageHead(m, or, number, title, publisher), "publisher") <= Len(m, "publisher") + 1
  {
    var p := InfoPageTest(number);
    var m1 := if title.Some? && title.value != "" then Added(m, "title", NewCandidate(Text(title.value), INFO_PAGE, Some(number), None)) else m;
    if title.Some? && title.value != "" {
      AppendsAdded(m, "title", NewCandidate(Text(title.value), INFO_PAGE, Some(number), None), p);
    } else {
      AppendsSame(m, p);
    }
    if publisher.Some? && publisher.value != "" {
      AppendsAdded(m1, "publisher", Registered(or, publisher.value, INFO_PAGE, Some(number)), p);
      AppendsTrans(m, m1, InfoPageHead(m, or, number, title, publisher), p);
    }
  }

  /** On a document whose info page is `number`, everything added is read on that page, and
      at most one title and one publisher are added. */
  lemma InfoPageSpec(m: Fields, or: Oracles, number: int, title: Option<string>, publisher: Option<string>,
                     authors: Option<seq<string>>)
    ensures Appends(m, InfoPageRun(m, or, number, title, publisher, authors).fields, InfoPageTest(number))
    ensures Len(InfoPageRun(m, or, number, title, publisher, authors).fields, "title") <= Len(m, "title") + 1
    ensures Len(InfoPageRun(m, or, number, title, publisher, authors).fields, "publisher") <= Len(m, "publisher") + 1
  {
    var m2 := InfoPageHead(m, or, number, title, publisher);
    InfoPageHeadSpec(m, or, number, title, publisher);
    if authors.Some? {
      InfoNamesAppends(m2, number, authors.value, 0);
      InfoNamesOnlyAuthors(m2, number, authors.value, 0);
      AppendsTrans(m, m2, InfoNamesFrom(m2, number, authors.value, 0).fields, InfoPageTest(number));
    }
  }

  /** The authors' loop leaves every other field as it was. */
  lemma {:induction false} InfoNamesOnlyAuthors(m: Fields, number: int, names: seq<string>, i: nat)
    ensures forall f :: f != "author" ==> Len(InfoNamesFrom(m, number, names, i).fields, f) == Len(m, f)
    decreases |names| - i
  {
    if i < |names| && CreateAuthorDict(names[i]).Ok? {
      var c := NewCandidate(CreateAuthorDict(names[i]).value, INFO_PAGE, Some(number), None);
      InfoNamesOnlyAuthors(Added(m, "author", c), number, names, i + 1);
    }
  }

  // ---------------------------------------------------------------- find_publisher

  predicate IsNewline(c: char) { c == '\n' }

  /** `text.split('\n')`. */
  function Lines(text: string): seq<string> { SplitWhere(text, IsNewline) }

  /** The line starts with the publisher label. */
  predicate IsLabelLine(pats: Patterns, line: string) { pats.publisherLabelMatch(line).Some? }

  function LabelTest(pats: Patterns): string -> bool { (line: string) => IsLabelLine(pats, line) }

  /** The page number and the text of the first line, from the `i`-th page on, that starts
      with the publisher label. */
  function LabelLineFrom(pats: Patterns, pages: Dict<int, string>, i: nat): (r: Option<(int, string)>)
    ensures r.Some? ==> IsLabelLine(pats, r.value.1)
    decreases |pages| - i
  {
    if i >= |pages| then None
    else match FirstIndex(Lines(pages[i].1), LabelTest(pats))
      case Some(j) => Some((pages[i].0, Lines(pages[i].1)[j]))
      case None => LabelLineFrom(pats, pages, i + 1)
  }

  /** None of the first `j` lines is a label line. */
  predicate NoLabelBefore(pats: Patterns, lines: seq<string>, j: nat)
    requires j <= |lines|
  {
    forall j' :: 0 <= j' < j ==> !IsLabelLine(pats, lines[j'])
  }

  /** `r` is the number of page `k` and its line `j`, which is a label line, while no page from
      the `i`-th on before page `k`, and no line of page `k` before line `j`, holds one. */
  predicate FirstLabelLineAt(pats: Patterns, pages: Dict<int, string>, i: nat, k: nat, j: nat, r: (int, string))
  {
    && i <= k < |pages| && j < |Lines(pages[k].1)|
    && pages[k].0 == r.0 && Lines(pages[k].1)[j] == r.1 && IsLabelLine(pats, r.1)
    && (forall k' :: i <= k' < k ==> NoLabelBefore(pats, Lines(pages[k'].1), |Lines(pages[k'].1)|))
    && NoLabelBefore(pats, Lines(pages[k].1), j)
  }

  /** The line found is the first label line, in page order and then in line order. */
  lemma {:induction false} LabelLineFirst(pats: Patterns, pages: Dict<int, string>, i: nat)
    requires LabelLineFrom(pats, pages, i).Some?
    ensures exists k, j :: FirstLabelLineAt(pats, pages, i, k, j, LabelLineFrom(pats, pages, i).value)
    decreases |pages| - i
  {
    var lines := Lines(pages[i].1);
    match FirstIndex(lines, LabelTest(pats))
    case Some(j) =>
      assert LabelTest(pats)(lines[j]);
      assert FirstLabelLineAt(pats, pages, i, i, j, LabelLineFrom(pats, pages, i).value);
    case None =>
      LabelLineFirst(pats, pages, i + 1);
      var r := LabelLineFrom(pats, pages, i + 1).value;
      var k, j :| FirstLabelLineAt(pats, pages, i + 1, k, j, r);
      assert NoLabelBefore(pats, lines, |lines|) by {
        assert forall j' :: 0 <= j' < |lines| ==> !LabelTest(pats)(lines[j']);
      }
      assert FirstLabelLineAt(pats, pages, i, k, j, r);
  }

  /** The text after the label, stripped. */
  function LabelValue(pats: Patterns, line: string): string
    requires IsLabelLine(pats, line)
  {
    Strip(Drop(line, pats.publisherLabelMatch(line).value))
  }

  /** A non-empty publisher read on page `number`, with its registry entries. */
  function PagePublisherOf(or: Oracles, name: string, number: int): Option<Candidate>
  {
    if name != "" then Some(Registered(or, name, PAGE, Some(number))) else None
  }

  /** The candidate `find_publisher` adds: only the first label line counts.  The text after
      its label is the publisher; when that is empty and no publisher came from the info page,
      the page object is asked for the text next to its publisher label (ValueError when the
      page has no object). */
  function PublisherFound(m: Fields, pats: Patterns, or: Oracles, pages: Dict<int, string>, objs: map<int, Page>): Result<Option<Candidate>>
  {
    match LabelLineFrom(pats, pages, 0)
    case None => Ok(None)
    case Some((number, line)) =>
      var value := LabelValue(pats, line);
      if value != "" then Ok(PagePublisherOf(or, value, number))
      else if HasInfoPagePublisher(m) then Ok(None)
      else ObjectPublisher(pats, or, number, objs)
  }

  /** The publisher next to the label on the page object `number`; ValueError when the page
      has no object. */
  function ObjectPublisher(pats: Patterns, or: Oracles, number: int, objs: map<int, Page>): Result<Option<Candidate>>
  {
    if number !in objs then Err("ValueError")
    else match objs[number].PublisherOf(pats)
      case None => Ok(None)
      case Some(b) => Ok(PagePublisherOf(or, b, number))
  }

  /** The error, or the publisher found added to the store. */
  function AddPublisher(m: Fields, found: Result<Option<Candidate>>): Run
  {
    match found
    case Err(e) => Run(m, Fail(e))
    case Ok(None) => Run(m, Pass)
    case Ok(Some(c)) => Run(Added(m, "publisher", c), Pass)
  }

  /** `find_publisher`. */
  function PublisherRun(m: Fields, pats: Patterns, or: Oracles, pages: Dict<int, string>, objs: map<int, Page>): Run
  {
    AddPublisher(m, PublisherFound(m, pats, or, pages, objs))
  }

  /** A non-empty publisher read on a page. */
  predicate PagePublisherCandidate(f: string, c: Candidate)
  {
    f == "publisher" && c.origin == PAGE && c.value.Text? && c.value.s != "" && c.pageNr.Some?
  }

  lemma PublisherFoundSpec(m: Fields, pats: Patterns, or: Oracles, pages: Dict<int, string>, objs: map<int, Page>)
    ensures var r := PublisherFound(m, pats, or, pages, objs);
      && (r.Ok? && r.value.Some? ==> PagePublisherCandidate("publisher", r.value.value))
      && (LabelLineFrom(pats, pages, 0).None? ==> r == Ok(None))
      && (HasInfoPagePublisher(m) ==> r.Ok?)
  {
  }

  /** The step adds at most one publisher, read on a page, and none when no line starts with
      the label; with a publisher from the info page it does not raise. */
  lemma PublisherRunSpec(m: Fields, pats: Patterns, or: Oracles, pages: Dict<int, string>, objs: map<int, Page>)
    ensures Appends(m, PublisherRun(m, pats, or, pages, objs).fields, PagePublisherCandidate)
    ensures Len(PublisherRun(m, pats, or, pages, objs).fields, "publisher") <= Len(m, "publisher") + 1
    ensures LabelLineFrom(pats, pages, 0).None? ==> PublisherRun(m, pats, or, pages, objs) == Run(m, Pass)
    ensures HasInfoPagePublisher(m) ==> PublisherRun(m, pats, or, pages, objs).outcome == Pass
  {
    PublisherFoundSpec(m, pats, or, pages, objs);
    match PublisherFound(m, pats, or, pages, objs)
    case Ok(Some(c)) =>
      AppendsAdded(m, "publisher", c, PagePublisherCandidate);
    case _ =>
      AppendsSame(m, PagePublisherCandidate);
  }

  // ---------------------------------------------------------------- parse_copyright

  /** What `parse_copyright_line` returns: the publisher, and the year when a date is found. */
  datatype Copyright = Copyright(publisher: string, year: Option<int>)

  /** The characters `strip(' .,')` removes. */
  const TRIMMED: set<char> := {' ', '.', ','}

  /** `s.replace('©', '').strip(' .,')`. */
  function CopyrightName(s: string): string
  {
    StripChars(Replace(s, "©", ""), TRIMMED)
  }

  /** `parse_copyright_line`: with a date, its year, and the publisher is the text before the
      date's match when the match occurs in the line; without one, the whole line. */
  function ParseCopyrightLine(or: Oracles, line: string): Copyright
  {
    match or.searchDates(line)
    case None => Copyright(CopyrightName(line), None)
    case Some((matched, year)) =>
      var index := Find(line, matched);
      if index < 0 then Copyright(CopyrightName(line), Some(year))
      else Copyright(CopyrightName(line[..index]), Some(year))
  }

  lemma {:induction false} ReplaceRemoves(s: string, c: char)
    ensures FreeOf(Replace(s, [c], ""), c)
    decreases |s|
  {
    if |s| > 0 {
      ReplaceRemoves(s[1..], c);
      if !IsPrefix([c], s) {
        assert s[0] != c;
        var t := Replace(s[1..], [c], "");
        assert Replace(s, [c], "") == [s[0]] + t;
      }
    }
  }

  lemma {:induction false} StripCharsFree(s: string, cs: set<char>, c: char)
    requires FreeOf(s, c)
    ensures FreeOf(StripChars(s, cs), c)
    decreases |s|
  {
    if |s| > 0 && s[0] in cs {
      StripCharsFree(s[1..], cs, c);
    } else if |s| > 0 && s[|s| - 1] in cs {
      StripCharsFree(s[..|s| - 1], cs, c);
    }
  }

  /** A copyright name holds no © and neither starts nor ends with a space, a dot or a comma. */
  lemma CopyrightNameClean(s: string)
    ensures FreeOf(CopyrightName(s), '©')
    ensures |CopyrightName(s)| > 0 ==> CopyrightName(s)[0] !in TRIMMED && CopyrightName(s)[|CopyrightName(s)| - 1] !in TRIMMED
  {
    ReplaceRemoves(s, '©');
    StripCharsFree(Replace(s, "©", ""), TRIMMED, '©');
  }

  /** A year is returned exactly when a date is found, and it is the date's year; the
      publisher is a clean name taken from the line, before the date's match when there is one. */
  lemma ParseCopyrightLineSpec(or: Oracles, line: string)
    ensures ParseCopyrightLine(or, line).year.Some? <==> or.searchDates(line).Some?
    ensures or.searchDates(line).Some? ==> ParseCopyrightLine(or, line).year == Some(or.searchDates(line).value.1)
    ensures FreeOf(ParseCopyrightLine(or, line).publisher, '©')
    ensures or.searchDates(line).Some? && Contains(line, or.searchDates(line).value.0) ==>
              var matched := or.searchDates(line).value.0;
              exists k :: 0 <= k <= |line| && OccursAt(line, matched, k)
                && (forall j :: 0 <= j < k ==> !OccursAt(line, matched, j))
                && ParseCopyrightLine(or, line).publisher == CopyrightName(line[..k])
  {
    match or.searchDates(line)
    case None =>
      CopyrightNameClean(line);
    case Some((matched, year)) =>
      var index := Find(line, matched);
      if index < 0 {
        CopyrightNameClean(line);
      } else {
        CopyrightNameClean(line[..index]);
        assert OccursAt(line, matched, index);
      }
      ContainsAt(line, matched);
  }

  /** The year of a parsed copyright line, added when there is one. */
  function CopyrightYear(m: Fields, number: int, res: Copyright): Fields
  {
    if res.year.Some? then Added(m, "year", NewCandidate(Number(res.year.value), COPYRIGHT, Some(number), None)) else m
  }

  /** The publisher of a parsed copyright line, added unless it is empty or already known. */
  function CopyrightPublisher(or: Oracles, m: Fields, number: int, res: Copyright): Fields
  {
    if res.publisher != "" && !HasPublisher(m, res.publisher) then Added(m, "publisher", Registered(or, res.publisher, COPYRIGHT, Some(number)))
    else m
  }

  /** After `©`: the year of the line, then the publisher; the publisher test sees the year just
      added, which is in another field. */
  function CopyrightLine(or: Oracles, m: Fields, number: int, line: string): Fields
  {
    match LineCopyright(or, line)
    case None => m
    case Some(res) => CopyrightPublisher(or, CopyrightYear(m, number, res), number, res)
  }

  /** The parsed text after the first `©` of the line, with its whitespace cleaned; none
      without `©`. */
  function LineCopyright(or: Oracles, line: string): Option<Copyright>
  {
    var k := Find(line, "©");
    if k < 0 then None else Some(ParseCopyrightLine(or, CleanWhitespace(line[k + 1..])))
  }

  /** The line holds `©` and a date after it. */
  predicate CopyrightYearLine(or: Oracles, line: string)
  {
    LineCopyright(or, line).Some? && LineCopyright(or, line).value.year.Some?
  }

  function CopyrightYearTest(or: Oracles): string -> bool { (line: string) => CopyrightYearLine(or, line) }

  /** The inner loop of `parse_copyright`, over the lines of page `number` from the `j`-th on. */
  function CopyrightLinesFrom(or: Oracles, m: Fields, number: int, lines: seq<string>, j: nat): Fields
    decreases |lines| - j
  {
    if j >= |lines| then m else CopyrightLinesFrom(or, CopyrightLine(or, m, number, lines[j]), number, lines, j + 1)
  }

  function CopyrightPage(or: Oracles): (Fields, (int, string)) -> Run
  {
    (m: Fields, page: (int, string)) => Run(CopyrightLinesFrom(or, m, page.0, Lines(page.1), 0), Pass)
  }

  /** `parse_copyright`. */
  function CopyrightRun(m: Fields, or: Oracles, pages: Dict<int, string>): Run
  {
    RunPages(m, CopyrightPage(or), pages, |pages|)
  }

  /** A year or a non-empty publisher read after `©` on a page. */
  predicate CopyrightCandidate(f: string, c: Candidate)
  {
    && c.origin == COPYRIGHT && c.pageNr.Some?
    && ((f == "year" && c.value.Number?) || (f == "publisher" && c.value.Text? && c.value.s != ""))
  }

  /** Each publisher added differs in value from every publisher before it. */
  predicate FreshPublishers(m: Fields, m': Fields)
  {
    "publisher" in m' ==>
      forall i, j :: Len(m, "publisher") <= i < |m'["publisher"]| && 0 <= j < i ==> m'["publisher"][j].value != m'["publisher"][i].value
  }

  lemma FreshSame(m: Fields)
    ensures FreshPublishers(m, m)
  {
  }

  lemma FreshAdded(m: Fields, f: string, c: Candidate)
    requires f == "publisher" ==> c.value.Text? && !HasPublisher(m, c.value.s)
    ensures FreshPublishers(m, Added(m, f, c))
  {
  }

  lemma FreshTrans(a: Fields, b: Fields, c: Fields, p: (string, Candidate) -> bool)
    requires Appends(a, b, p) && Appends(b, c, p) && FreshPublishers(a, b) && FreshPublishers(b, c)
    ensures FreshPublishers(a, c)
  {
    if "publisher" in c {
      var l := c["publisher"];
      forall i, j | Len(a, "publisher") <= i < |l| && 0 <= j < i ensures l[j].value != l[i].value {
        if i < Len(b, "publisher") {
          assert b["publisher"] <= l;
          assert l[i] == b["publisher"][i] && l[j] == b["publisher"][j];
        }
      }
    }
  }

  lemma CopyrightYearSpec(m: Fields, number: int, res: Copyright)
    ensures Appends(m, CopyrightYear(m, number, res), CopyrightCandidate)
    ensures FreshPublishers(m, CopyrightYear(m, number, res))
    ensures Len(CopyrightYear(m, number, res), "year") == Len(m, "year") + if res.year.Some? then 1 else 0
  {
    if res.year.Some? {
      var c := NewCandidate(Number(res.year.value), COPYRIGHT, Some(number), None);
      AppendsAdded(m, "year", c, CopyrightCandidate);
      FreshAdded(m, "year", c);
    } else {
      AppendsSame(m, CopyrightCandidate);
    }
  }

  lemma CopyrightPublisherSpec(or: Oracles, m: Fields, number: int, res: Copyright)
    ensures Appends(m, CopyrightPublisher(or, m, number, res), CopyrightCandidate)
    ensures FreshPublishers(m, CopyrightPublisher(or, m, number, res))
    ensures Len(CopyrightPublisher(or, m, number, res), "year") == Len(m, "year")
  {
    if res.publisher != "" && !HasPublisher(m, res.publisher) {
      var c := Registered(or, res.publisher, COPYRIGHT, Some(number));
      AppendsAdded(m, "publisher", c, CopyrightCandidate);
      FreshAdded(m, "publisher", c);
    } else {
      AppendsSame(m, CopyrightCandidate);
    }
  }

  /** A copyright line adds its year when it has one, and a publisher only when it is new. */
  lemma CopyrightLineSpec(or: Oracles, m: Fields, number: int, line: string)
    ensures Appends(m, CopyrightLine(or, m, number, line), CopyrightCandidate)
    ensures FreshPublishers(m, CopyrightLine(or, m, number, line))
    ensures Len(CopyrightLine(or, m, number, line), "year") == Len(m, "year") + if CopyrightYearLine(or, line) then 1 else 0
  {
    match LineCopyright(or, line)
    case None =>
      AppendsSame(m, CopyrightCandidate);
    case Some(res) =>
      var m1 := CopyrightYear(m, number, res);
      CopyrightYearSpec(m, number, res);
      CopyrightPublisherSpec(or, m1, number, res);
      AppendsTrans(m, m1, CopyrightPublisher(or, m1, number, res), CopyrightCandidate);
      FreshTrans(m, m1, CopyrightPublisher(or, m1, number, res), CopyrightCandidate);
  }

  /** The lines of a page add one year per line that has `©` and a date, and only new
      publishers. */
  lemma {:induction false} CopyrightLinesSpec(or: Oracles, m: Fields, number: int, lines: seq<string>, j: nat)
    requires j <= |lines|
    ensures Appends(m, CopyrightLinesFrom(or, m, number, lines, j), CopyrightCandidate)
    ensures FreshPublishers(m, CopyrightLinesFrom(or, m, number, lines, j))
    ensures Len(CopyrightLinesFrom(or, m, number, lines, j), "year") == Len(m, "year") + Count(lines[j..], CopyrightYearTest(or))
    decreases |lines| - j
  {
    if j == |lines| {
      AppendsSame(m, CopyrightCandidate);
      FreshSame(m);
    } else {
      var m1 := CopyrightLine(or, m, number, lines[j]);
      var r := CopyrightLinesFrom(or, m1, number, lines, j + 1);
      CopyrightLineSpec(or, m, number, lines[j]);
      CopyrightLinesSpec(or, m1, number, lines, j + 1);
      AppendsTrans(m, m1, r, CopyrightCandidate);
      FreshTrans(m, m1, r, CopyrightCandidate);
      assert lines[j..] == [lines[j]] + lines[j + 1..];
      CountCons(lines[j], lines[j + 1..], CopyrightYearTest(or));
    }
  }

  /** A loop whose every turn appends only new publishers appends only new publishers. */
  lemma {:induction false} RunPagesFresh(m: Fields, step: (Fields, (int, string)) -> Run, pages: Dict<int, string>, n: nat,
                                         p: (string, Candidate) -> bool)
    requires n <= |pages|
    requires forall x: Fields, j :: 0 <= j < |pages| ==> Appends(x, step(x, pages[j]).fields, p) && FreshPublishers(x, step(x, pages[j]).fields)
    ensures FreshPublishers(m, RunPages(m, step, pages, n).fields)
  {
    if n == 0 {
      FreshSame(m);
    } else {
      RunPagesFresh(m, step, pages, n - 1, p);
      var r := RunPages(m, step, pages, n - 1);
      if r.outcome.Pass? {
        RunPagesAppends(m, step, pages, n - 1, p);
        FreshTrans(m, r.fields, step(r.fields, pages[n - 1]).fields, p);
      }
    }
  }

  /** `parse_copyright` adds only years and publishers read after `©`, and no publisher whose
      value is already a publisher. */
  lemma CopyrightSpec(m: Fields, or: Oracles, pages: Dict<int, string>)
    ensures Appends(m, CopyrightRun(m, or, pages).fields, CopyrightCandidate)
    ensures FreshPublishers(m, CopyrightRun(m, or, pages).fields)
    ensures CopyrightRun(m, or, pages).outcome == Pass
  {
    forall x: Fields, j | 0 <= j < |pages|
      ensures Appends(x, CopyrightPage(or)(x, pages[j]).fields, CopyrightCandidate)
      ensures FreshPublishers(x, CopyrightPage(or)(x, pages[j]).fields)
    {
      CopyrightLinesSpec(or, x, pages[j].0, Lines(pages[j].1), 0);
    }
    RunPagesAppends(m, CopyrightPage(or), pages, |pages|, CopyrightCandidate);
    RunPagesFresh(m, CopyrightPage(or), pages, |pages|, CopyrightCandidate);
    CopyrightPass(m, or, pages, |pages|);
  }

  lemma {:induction false} CopyrightPass(m: Fields, or: Oracles, pages: Dict<int, string>, n: nat)
    requires n <= |pages|
    ensures RunPages(m, CopyrightPage(or), pages, n).outcome == Pass
  {
    if n > 0 {
      CopyrightPass(m, or, pages, n - 1);
    }
  }

  // ---------------------------------------------------------------- find_report_prefix

  /** The first line of a text, stripped. */
  function FirstLine(text: string): string { Strip(Lines(text)[0]) }

  /** `find_report_prefix` on one block of page `number`: image blocks, first lines without
      letters or of one character, and known publishers are skipped; an upper-case prefix before
      a report label that is not a known publisher is added. */
  function ReportBlock(or: Oracles, pats: Patterns, m: Fields, number: int, b: BlockTuple): Fields
  {
    if b.kind == 1 then m
    else
      var line := FirstLine(b.text);
      if HasNoLetters(line) || |line| == 1 || HasPublisher(m, line) then m
      else match FindReportPrefix(pats, line)
        case None => m
        case Some(rp) =>
          if HasPublisher(m, rp) then m else Added(m, "publisher", Registered(or, rp, RAPPORT_PREFIX, Some(number)))
  }

  /** The inner loop, over the blocks of page `number` from the `j`-th on. */
  function ReportBlocksFrom(or: Oracles, pats: Patterns, m: Fields, number: int, bs: seq<BlockTuple>, j: nat): Fields
    decreases |bs| - j
  {
    if j >= |bs| then m else ReportBlocksFrom(or, pats, ReportBlock(or, pats, m, number, bs[j]), number, bs, j + 1)
  }

  /** One page: its blocks come from the PDF (AttributeError without one, ValueError for a page
      it does not have). */
  function ReportPage(or: Oracles, pats: Patterns, pdf: Option<PdfDoc>): (Fields, (int, string)) -> Run
  {
    (m: Fields, page: (int, string)) =>
      if pdf.None? then Run(m, Fail("AttributeError"))
      else if !(1 <= page.0 <= |pdf.value.pages|) then Run(m, Fail("ValueError"))
      else Run(ReportBlocksFrom(or, pats, m, page.0, pdf.value.pages[page.0 - 1].tuples, 0), Pass)
  }

  /** `find_report_prefix`. */
  function ReportPrefixRun(m: Fields, or: Oracles, pats: Patterns, pdf: Option<PdfDoc>, pages: Dict<int, string>): Run
  {
    RunPages(m, ReportPage(or, pats, pdf), pages, |pages|)
  }

  /** An upper-case report prefix read on a page. */
  predicate ReportPrefixCandidate(f: string, c: Candidate)
  {
    f == "publisher" && c.origin == RAPPORT_PREFIX && c.value.Text? && IsUpper(c.value.s) && c.pageNr.Some?
  }

  lemma ReportBlockSpec(or: Oracles, pats: Patterns, m: Fields, number: int, b: BlockTuple)
    ensures Appends(m, ReportBlock(or, pats, m, number, b), ReportPrefixCandidate)
    ensures FreshPublishers(m, ReportBlock(or, pats, m, number, b))
  {
    var line := FirstLine(b.text);
    if b.kind != 1 && !(HasNoLetters(line) || |line| == 1 || HasPublisher(m, line)) && FindReportPrefix(pats, line).Some? {
      var rp := FindReportPrefix(pats, line).value;
      if !HasPublisher(m, rp) {
        var c := Registered(or, rp, RAPPORT_PREFIX, Some(number));
        AppendsAdded(m, "publisher", c, ReportPrefixCandidate);
        FreshAdded(m, "publisher", c);
        return;
      }
    }
    AppendsSame(m, ReportPrefixCandidate);
  }

  lemma {:induction false} ReportBlocksSpec(or: Oracles, pats: Patterns, m: Fields, number: int, bs: seq<BlockTuple>, j: nat)
    ensures Appends(m, ReportBlocksFrom(or, pats, m, number, bs, j), ReportPrefixCandidate)
    ensures FreshPublishers(m, ReportBlocksFrom(or, pats, m, number, bs, j))
    decreases |bs| - j
  {
    if j >= |bs| {
      AppendsSame(m, ReportPrefixCandidate);
    } else {
      var m1 := ReportBlock(or, pats, m, number, bs[j]);
      var r := ReportBlocksFrom(or, pats, m1, number, bs, j + 1);
      ReportBlockSpec(or, pats, m, number, bs[j]);
      ReportBlocksSpec(or, pats, m1, number, bs, j + 1);
      AppendsTrans(m, m1, r, ReportPrefixCandidate);
      FreshTrans(m, m1, r, ReportPrefixCandidate);
    }
  }

  /** `find_report_prefix` adds only upper-case report prefixes, and none that is already a
      publisher. */
  lemma ReportPrefixSpec(m: Fields, or: Oracles, pats: Patterns, pdf: Option<PdfDoc>, pages: Dict<int, string>)
    ensures Appends(m, ReportPrefixRun(m, or, pats, pdf, pages).fields, ReportPrefixCandidate)
    ensures FreshPublishers(m, ReportPrefixRun(m, or, pats, pdf, pages).fields)
  {
    var step := ReportPage(or, pats, pdf);
    forall x: Fields, j | 0 <= j < |pages|
      ensures Appends(x, step(x, pages[j]).fields, ReportPrefixCandidate)
      ensures FreshPublishers(x, step(x, pages[j]).fields)
    {
      if pdf.Some? && 1 <= pages[j].0 <= |pdf.value.pages| {
        ReportBlocksSpec(or, pats, x, pages[j].0, pdf.value.pages[pages[j].0 - 1].tuples, 0);
      } else {
        AppendsSame(x, ReportPrefixCandidate);
      }
    }
    RunPagesAppends(m, step, pages, |pages|, ReportPrefixCandidate);
    RunPagesFresh(m, step, pages, |pages|, ReportPrefixCandidate);
  }

  // ---------------------------------------------------------------- get_language

  /** `pages.values()`. */
  function PageTexts(pages: Dict<int, string>): (r: seq<string>)
    ensures |r| == |pages| && forall i :: 0 <= i < |pages| ==> r[i] == pages[i].1
  {
    if |pages| == 0 then [] else PageTexts(pages[..|pages| - 1]) + [pages[|pages| - 1].1]
  }

  /** `get_language`: the language detected in all the pages' text, joined by spaces. */
  function LanguageRun(m: Fields, or: Oracles, pages: Dict<int, string>): Run
  {
    match or.detectLanguage(Join(" ", PageTexts(pages)))
    case None => Run(m, Pass)
    case Some(lang) => Run(Added(m, "language", NewCandidate(Text(lang), LANGUAGE_MODEL, None, None)), Pass)
  }

  predicate LanguageCandidate(f: string, c: Candidate)
  {
    f == "language" && c.origin == LANGUAGE_MODEL && c.value.Text? && c.pageNr.None?
  }

  /** One language is added exactly when detection succeeds, and the step never raises. */
  lemma LanguageSpec(m: Fields, or: Oracles, pages: Dict<int, string>)
    ensures Appends(m, LanguageRun(m, or, pages).fields, LanguageCandidate)
    ensures Len(LanguageRun(m, or, pages).fields, "language")
              == Len(m, "language") + if or.detectLanguage(Join(" ", PageTexts(pages))).Some? then 1 else 0
    ensures LanguageRun(m, or, pages).outcome == Pass
  {
    match or.detectLanguage(Join(" ", PageTexts(pages)))
    case None => AppendsSame(m, LanguageCandidate);
    case Some(lang) => AppendsAdded(m, "language", NewCandidate(Text(lang), LANGUAGE_MODEL, None, None), LanguageCandidate);
  }

  // ---------------------------------------------------------------- find_author

  /** The value of the first title candidate when it is a non-empty string (IndexError for an
      empty title list, which `add_candidate` never leaves). */
  function FoundTitle(m: Fields): Result<Option<string>>
  {
    if "title" !in m then Ok(None)
    else if |m["title"]| == 0 then Err("IndexError")
    else match m["title"][0].value
      case Text(s) => Ok(if s != "" then Some(s) else None)
      case _ => Ok(None)
  }

  /** On a store whose every field holds a candidate, as `add_candidate` leaves it, reading
      the first title never raises. */
  lemma FoundTitleOk(m: Fields)
    requires NonEmptyLists(m)
    ensures FoundTitle(m).Ok?
  {
  }

  /** A front-page name `find_author` drops: one found in the title, one holding a stop word, or
      one spelled in spaced capitals. */
  predicate Skipped(title: Option<string>, stopwords: seq<string>, name: string)
  {
    (title.Some? && NameExistsInTitle(title.value, name)) || HasStopword(stopwords, name) || AllCapsSpaced(name)
  }

  function KeptName(title: Option<string>, stopwords: seq<string>): string -> bool
  {
    (name: string) => !Skipped(title, stopwords, name)
  }

  /** The names of the front page, from the `i`-th on, that `keep` lets through, as authors. */
  function FrontAuthorsFrom(m: Fields, keep: string -> bool, names: seq<string>, i: nat): Run
    decreases |names| - i
  {
    if i >= |names| then Run(m, Pass)
    else if !keep(names[i]) then FrontAuthorsFrom(m, keep, names, i + 1)
    else match CreateAuthorDict(names[i])
      case Err(e) => Run(m, Fail(e))
      case Ok(v) => FrontAuthorsFrom(Added(m, "author", NewCandidate(v, FRONT_PAGE, None, None)), keep, names, i + 1)
  }

  /** The names `get_author_names` finds in the probable name blocks of a page. */
  function FrontNames(pats: Patterns, p: Page): Option<seq<string>>
  {
    GetAuthorNames(pats, Prefixed(KeptTexts(NameBlockTest(pats), p.textBlocks)))
  }

  /** `find_author`, on the first page's object (ValueError when it has none). */
  function AuthorRun(m: Fields, pats: Patterns, stopwords: seq<string>, objs: map<int, Page>): Run
  {
    if 1 !in objs then Run(m, Fail("ValueError")) else AuthorOnPage(m, pats, stopwords, objs[1])
  }

  /** `find_author` once the front page's object is at hand. */
  function AuthorOnPage(m: Fields, pats: Patterns, stopwords: seq<string>, p: Page): Run
  {
    match FrontNames(pats, p)
      case None => Run(m, Pass)
      case Some(names) =>
        if names == [] then Run(m, Pass)
        else match FoundTitle(m)
          case Err(e) => Run(m, Fail(e))
          case Ok(title) => FrontAuthorsFrom(m, KeptName(title, stopwords), names, 0)
  }

  predicate FrontAuthor(f: string, c: Candidate)
  {
    f == "author" && c.origin == FRONT_PAGE && c.value.Person? && c.pageNr.None?
  }

  /** Each name kept becomes one front-page author, and a name not kept none. */
  lemma {:induction false} FrontAuthorsSpec(m: Fields, keep: string -> bool, names: seq<string>, i: nat)
    requires i <= |names|
    ensures Appends(m, FrontAuthorsFrom(m, keep, names, i).fields, FrontAuthor)
    ensures FrontAuthorsFrom(m, keep, names, i).outcome.Pass? ==>
              Len(FrontAuthorsFrom(m, keep, names, i).fields, "author") == Len(m, "author") + Count(names[i..], keep)
    decreases |names| - i
  {
    if i == |names| {
      AppendsSame(m, FrontAuthor);
    } else {
      assert names[i..] == [names[i]] + names[i + 1..];
      CountCons(names[i], names[i + 1..], keep);
      if !keep(names[i]) {
        FrontAuthorsSpec(m, keep, names, i + 1);
      } else if CreateAuthorDict(names[i]).Ok? {
        var c := NewCandidate(CreateAuthorDict(names[i]).value, FRONT_PAGE, None, None);
        var m1 := Added(m, "author", c);
        AppendsAdded(m, "author", c, FrontAuthor);
        FrontAuthorsSpec(m1, keep, names, i + 1);
        AppendsTrans(m, m1, FrontAuthorsFrom(m1, keep, names, i + 1).fields, FrontAuthor);
      } else {
        AppendsSame(m, FrontAuthor);
      }
    }
  }

  /** `find_author` adds only front-page authors: as many as the front page's names that are not
      skipped, and none when the page holds no names. */
  lemma AuthorSpec(m: Fields, pats: Patterns, stopwords: seq<string>, objs: map<int, Page>)
    ensures Appends(m, AuthorRun(m, pats, stopwords, objs).fields, FrontAuthor)
    ensures 1 in objs && AuthorRun(m, pats, stopwords, objs).outcome.Pass? && FrontNames(pats, objs[1]).Some? && FoundTitle(m).Ok? ==>
              Len(AuthorRun(m, pats, stopwords, objs).fields, "author")
                == Len(m, "author") + Count(FrontNames(pats, objs[1]).value, KeptName(FoundTitle(m).value, stopwords))
  {
    if 1 in objs && FrontNames(pats, objs[1]).Some? {
      var names := FrontNames(pats, objs[1]).value;
      if names != [] && FoundTitle(m).Ok? {
        assert names[0..] == names;
        FrontAuthorsSpec(m, KeptName(FoundTitle(m).value, stopwords), names, 0);
        return;
      }
      if FoundTitle(m).Ok? {
        assert Count(names, KeptName(FoundTitle(m).value, stopwords)) == 0;
      }
    }
    AppendsSame(m, FrontAuthor);
  }

  // ---------------------------------------------------------------- find_document_type

  /** `find_document_type`: the document type of the first page's text (KeyError when the
      document has no page 1). */
  function DocTypeRun(m: Fields, pats: Patterns, docTypes: map<string, string>, pages: Dict<int, string>): Run
  {
    match Get(pages, 1)
    case None => Run(m, Fail("KeyError"))
    case Some(t) =>
      match FindDocType(pats, docTypes, t)
      case Some(d) =>
        if d != "" then Run(Added(m, "document_type", NewCandidate(Text(d), FRONT_PAGE, None, None)), Pass) else Run(m, Pass)
      case None => Run(m, Pass)
  }

  predicate DocTypeCandidate(f: string, c: Candidate)
  {
    f == "document_type" && c.origin == FRONT_PAGE && c.value.Text? && c.value.s != "" && c.pageNr.None?
  }

  /** One document type is added exactly when the first page yields a non-empty one. */
  lemma DocTypeSpec(m: Fields, pats: Patterns, docTypes: map<string, string>, pages: Dict<int, string>)
    ensures Appends(m, DocTypeRun(m, pats, docTypes, pages).fields, DocTypeCandidate)
    ensures (DocTypeRun(m, pats, docTypes, pages).outcome == Fail("KeyError")) <==> 1 !in Keys(pages)
    ensures Len(DocTypeRun(m, pats, docTypes, pages).fields, "document_type")
              == Len(m, "document_type") + if Get(pages, 1).Some? && FindDocType(pats, docTypes, Get(pages, 1).value).Some?
                                                 && FindDocType(pats, docTypes, Get(pages, 1).value).value != "" then 1 else 0
  {
    if Get(pages, 1).Some? && FindDocType(pats, docTypes, Get(pages, 1).value).Some? && FindDocType(pats, docTypes, Get(pages, 1).value).value != "" {
      AppendsAdded(m, "document_type", NewCandidate(Text(FindDocType(pats, docTypes, Get(pages, 1).value).value), FRONT_PAGE, None, None), DocTypeCandidate);
    } else {
      AppendsSame(m, DocTypeCandidate);
    }
  }

  /** A candidate of one of the kinds the steps of `extract_metadata` add. */
  predicate Heuristic(pages: Dict<int, string>, f: string, c: Candidate)
  {
    || FrontPageTitle(f, c) || InfoTitle(f, c) || InfoAuthor(f, c) || InfoYearCandidate(f, c)
    || IsxnCandidate(ISBN, pages, f, c) || IsxnCandidate(ISSN, pages, f, c)
    || (c.pageNr.Some? && InfoPageCandidate(c.pageNr.value, f, c))
    || PagePublisherCandidate(f, c) || CopyrightCandidate(f, c) || ReportPrefixCandidate(f, c)
    || LanguageCandidate(f, c) || FrontAuthor(f, c) || DocTypeCandidate(f, c)
  }

  function HeuristicTest(pages: Dict<int, string>): (string, Candidate) -> bool
  {
    (f: string, c: Candidate) => Heuristic(pages, f, c)
  }

  /** Appending candidates of a kind is appending candidates of any wider kind. */
  lemma AppendsWeaken(m: Fields, m': Fields, p: (string, Candidate) -> bool, q: (string, Candidate) -> bool)
    requires Appends(m, m', p)
    requires forall f, c :: p(f, c) ==> q(f, c)
    ensures Appends(m, m', q)
  {
  }

  lemma TitleFromPageHeuristic(m: Fields, objs: map<int, Page>, pages: Dict<int, string>)
    ensures Appends(m, TitleFromPageRun(m, objs).fields, HeuristicTest(pages))
  {
    TitleFromPageAppends(m, objs);
    AppendsWeaken(m, TitleFromPageRun(m, objs).fields, FrontPageTitle, HeuristicTest(pages));
  }

  lemma TitleFromInfoHeuristic(m: Fields, info: Option<map<string, string>>, pages: Dict<int, string>)
    ensures Appends(m, TitleFromInfoRun(m, info, pages).fields, HeuristicTest(pages))
  {
    TitleFromInfoSpec(m, info, pages);
    AppendsWeaken(m, TitleFromInfoRun(m, info, pages).fields, InfoTitle, HeuristicTest(pages));
  }

  lemma AuthorFromInfoHeuristic(m: Fields, info: Option<map<string, string>>, pats: Patterns, stopwords: seq<string>,
                                pages: Dict<int, string>)
    ensures Appends(m, AuthorFromInfoRun(m, info, pats, stopwords, pages).fields, HeuristicTest(pages))
  {
    AuthorFromInfoSpec(m, info, pats, stopwords, pages);
    AppendsWeaken(m, AuthorFromInfoRun(m, info, pats, stopwords, pages).fields, InfoAuthor, HeuristicTest(pages));
  }

  lemma YearFromInfoHeuristic(m: Fields, info: Option<map<string, string>>, or: Oracles, pages: Dict<int, string>)
    ensures Appends(m, YearFromInfoRun(m, info, or, pages).fields, HeuristicTest(pages))
  {
    YearFromInfoSpec(m, info, or, pages);
    AppendsWeaken(m, YearFromInfoRun(m, info, or, pages).fields, InfoYearCandidate, HeuristicTest(pages));
  }

  lemma IsxnHeuristic(m: Fields, id: Identifier, pages: Dict<int, string>, objs: map<int, Page>)
    ensures Appends(m, IsxnRun(m, id, pages, objs).fields, HeuristicTest(pages))
  {
    IsxnAppends(m, id, pages, objs);
    AppendsWeaken(m, IsxnRun(m, id, pages, objs).fields, IsxnTest(id, pages), HeuristicTest(pages));
  }

  lemma InfoPageHeuristic(m: Fields, or: Oracles, number: int, title: Option<string>, publisher: Option<string>,
                          authors: Option<seq<string>>, pages: Dict<int, string>)
    ensures Appends(m, InfoPageRun(m, or, number, title, publisher, authors).fields, HeuristicTest(pages))
  {
    InfoPageSpec(m, or, number, title, publisher, authors);
    AppendsWeaken(m, InfoPageRun(m, or, number, title, publisher, authors).fields, InfoPageTest(number), HeuristicTest(pages));
  }

  lemma ReadInfoPageHeuristic(m: Fields, or: Oracles, pats: Patterns, keywords: seq<string>, pages: Dict<int, string>,
                              pdf: Option<PdfDoc>)
    ensures Appends(m, ReadInfoPageRun(m, or, pats, keywords, pages, pdf).fields, HeuristicTest(pages))
  {
    match InfoPageSource(pages, keywords, pdf)
    case Err(e) => AppendsSame(m, HeuristicTest(pages));
    case Ok(None) => AppendsSame(m, HeuristicTest(pages));
    case Ok(Some(src)) =>
      if |KeptSpans(src.1)| == 0 {
        AppendsSame(m, HeuristicTest(pages));
      } else {
        var v := InfoValuesOf(src.1, keywords, pats);
        InfoPageHeuristic(m, or, src.0, v.0, v.1, v.2, pages);
      }
  }

  lemma PublisherHeuristic(m: Fields, pats: Patterns, or: Oracles, pages: Dict<int, string>, objs: map<int, Page>)
    ensures Appends(m, PublisherRun(m, pats, or, pages, objs).fields, HeuristicTest(pages))
  {
    PublisherRunSpec(m, pats, or, pages, objs);
    AppendsWeaken(m, PublisherRun(m, pats, or, pages, objs).fields, PagePublisherCandidate, HeuristicTest(pages));
  }

  lemma CopyrightHeuristic(m: Fields, or: Oracles, pages: Dict<int, string>)
    ensures Appends(m, CopyrightRun(m, or, pages).fields, HeuristicTest(pages))
  {
    CopyrightSpec(m, or, pages);
    AppendsWeaken(m, CopyrightRun(m, or, pages).fields, CopyrightCandidate, HeuristicTest(pages));
  }

  lemma ReportPrefixHeuristic(m: Fields, or: Oracles, pats: Patterns, pdf: Option<PdfDoc>, pages: Dict<int, string>)
    ensures Appends(m, ReportPrefixRun(m, or, pats, pdf, pages).fields, HeuristicTest(pages))
  {
    ReportPrefixSpec(m, or, pats, pdf, pages);
    AppendsWeaken(m, ReportPrefixRun(m, or, pats, pdf, pages).fields, ReportPrefixCandidate, HeuristicTest(pages));
  }

  lemma LanguageHeuristic(m: Fields, or: Oracles, pages: Dict<int, string>)
    ensures Appends(m, LanguageRun(m, or, pages).fields, HeuristicTest(pages))
  {
    LanguageSpec(m, or, pages);
    AppendsWeaken(m, LanguageRun(m, or, pages).fields, LanguageCandidate, HeuristicTest(pages));
  }

  lemma AuthorHeuristic(m: Fields, pats: Patterns, stopwords: seq<string>, objs: map<int, Page>, pages: Dict<int, string>)
    ensures Appends(m, AuthorRun(m, pats, stopwords, objs).fields, HeuristicTest(pages))
  {
    AuthorSpec(m, pats, stopwords, objs);
    AppendsWeaken(m, AuthorRun(m, pats, stopwords, objs).fields, FrontAuthor, HeuristicTest(pages));
  }

  lemma DocTypeHeuristic(m: Fields, pats: Patterns, docTypes: map<string, string>, pages: Dict<int, string>)
    ensures Appends(m, DocTypeRun(m, pats, docTypes, pages).fields, HeuristicTest(pages))
  {
    DocTypeSpec(m, pats, docTypes, pages);
    AppendsWeaken(m, DocTypeRun(m, pats, docTypes, pages).fields, DocTypeCandidate, HeuristicTest(pages));
  }
}
