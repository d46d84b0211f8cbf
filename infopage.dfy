// Information pages (metadata_extract/infopage.py): the page that lists a report's metadata as a
// table of labels and values.  Its blocks are classified by flag bits, the page decides whether
// labels are set apart by font, colon or capitals, and a value is read from the neighbour of a
// label that looks least like a label itself.

module InfoPages {
  import opened Common
  import opened Strings
  import opened Unique
  import opened Dicts
  import opened Sorting
  import opened Lists
  import opened Text
  import opened Pages
  import opened AuthorNames

  const UPPERCASE: bv8 := 1
  const ENDSWITHCOLON: bv8 := 2
  const HASKEYWORD: bv8 := 4
  const KEYWORDFONT: bv8 := 8

  // ---------------------------------------------------------------- find_page_number

  /** The number of keywords occurring in the lower-cased text. */
  function KeywordScore(keywords: seq<string>, text: string): (n: nat)
    ensures n <= |keywords|
  {
    if |keywords| == 0 then 0
    else KeywordScore(keywords[..|keywords| - 1], text) + (if Contains(Lower(text), keywords[|keywords| - 1]) then 1 else 0)
  }

  /** Some keyword occurs in the lower-cased text. */
  predicate HasAnyKeyword(keywords: seq<string>, text: string)
  {
    exists i :: 0 <= i < |keywords| && Contains(Lower(text), keywords[i])
  }

  /** A text scores above zero exactly when some keyword occurs in it. */
  lemma {:induction false} KeywordScorePositive(keywords: seq<string>, text: string)
    ensures KeywordScore(keywords, text) > 0 <==> HasAnyKeyword(keywords, text)
  {
    if |keywords| > 0 {
      var init := keywords[..|keywords| - 1];
      KeywordScorePositive(init, text);
      assert forall i :: 0 <= i < |init| ==> init[i] == keywords[i];
      if HasAnyKeyword(keywords, text) && !Contains(Lower(text), keywords[|keywords| - 1]) {
        var i :| 0 <= i < |keywords| && Contains(Lower(text), keywords[i]);
        assert i < |init|;
      }
    }
  }

  /** The `scores` dict: each page number with its score, in page order. */
  function PageScores(pages: Dict<int, string>, keywords: seq<string>): (r: Dict<int, nat>)
    ensures |r| == |pages|
    ensures forall i :: 0 <= i < |pages| ==> r[i] == (pages[i].0, KeywordScore(keywords, pages[i].1))
  {
    if |pages| == 0 then []
    else PageScores(pages[..|pages| - 1], keywords) + [(pages[|pages| - 1].0, KeywordScore(keywords, pages[|pages| - 1].1))]
  }

  /** `max(scores.values())`. */
  function MaxScore(scores: Dict<int, nat>): (m: nat)
    requires |scores| > 0
    ensures forall i :: 0 <= i < |scores| ==> scores[i].1 <= m
    ensures exists i :: 0 <= i < |scores| && scores[i].1 == m
  {
    if |scores| == 1 then scores[0].1
    else
      var m := MaxScore(scores[1..]);
      assert forall i :: 1 <= i < |scores| ==> scores[i] == scores[1..][i - 1];
      if scores[0].1 >= m then scores[0].1 else m
  }

  function NegScore(item: (int, nat)): real { -(item.1 as real) }

  /** What `find_page_number` returns: 0 when no page holds a keyword, else the page of the first
      item of the scores sorted by descending score.  An empty dict makes `max` raise
      ValueError. */
  function PageNumber(pages: Dict<int, string>, keywords: seq<string>): Result<int>
  {
    var scores := PageScores(pages, keywords);
    if |scores| == 0 then Err("ValueError")
    else if MaxScore(scores) == 0 then Ok(0)
    else Ok(Sort(scores, NegScore, false)[0].0)
  }

  /** `InfoPage.find_page_number`; `keywords` are the info-page keywords of the resource loader. */
  method FindPageNumber(pages: Dict<int, string>, keywords: seq<string>) returns (r: Result<int>)
    ensures r == PageNumber(pages, keywords)
  {
    var scores: Dict<int, nat> := [];
    var i := 0;
    while i < |pages|
      invariant 0 <= i <= |pages|
      invariant scores == PageScores(pages[..i], keywords)
    {
      var text := pages[i].1;
      var lowered := Lower(text);
      var score := 0;
      var j := 0;
      while j < |keywords|
        invariant 0 <= j <= |keywords|
        invariant score == KeywordScore(keywords[..j], text)
      {
        assert keywords[..j + 1][..j] == keywords[..j];
        if Contains(lowered, keywords[j]) {
          score := score + 1;
        }
        j := j + 1;
      }
      assert keywords[..j] == keywords;
      assert pages[..i + 1][..i] == pages[..i];
      scores := scores + [(pages[i].0, score)];
      i := i + 1;
    }
    assert pages[..i] == pages;
    if |scores| == 0 {
      return Err("ValueError");
    }
    if MaxScore(scores) == 0 {
      return Ok(0);
    }
    var sortedPages := Sort(scores, NegScore, false);
    r := Ok(sortedPages[0].0);
  }

  /** Page `i` has the highest score, and every page before it a lower one. */
  predicate FirstTopPage(pages: Dict<int, string>, keywords: seq<string>, i: int)
  {
    0 <= i < |pages|
    && (forall j :: 0 <= j < |pages| ==> KeywordScore(keywords, pages[j].1) <= KeywordScore(keywords, pages[i].1))
    && (forall j :: 0 <= j < i ==> KeywordScore(keywords, pages[j].1) < KeywordScore(keywords, pages[i].1))
  }

  /** The first best item of the scores is a first top page. */
  lemma TopPageOfBest(pages: Dict<int, string>, keywords: seq<string>, i: int)
    requires IsFirstBest(PageScores(pages, keywords), NegScore, false, i)
    ensures FirstTopPage(pages, keywords, i)
  {
    var scores := PageScores(pages, keywords);
    forall k | 0 <= k < |pages| ensures scores[k].1 <= scores[i].1 {
      FirstBestKey(scores, NegScore, false, i, k);
    }
    forall k | 0 <= k < i ensures scores[k].1 < scores[i].1 {
      assert Before(NegScore, false, scores[i], scores[k]);
    }
  }

  /** `find_page_number` raises on no pages, returns 0 when no page holds a keyword, and else
      the number of the earliest page with the most keywords. */
  lemma PageNumberSpec(pages: Dict<int, string>, keywords: seq<string>)
    ensures PageNumber(pages, keywords).Err? <==> |pages| == 0
    ensures |pages| > 0 && (forall j :: 0 <= j < |pages| ==> KeywordScore(keywords, pages[j].1) == 0)
            ==> PageNumber(pages, keywords) == Ok(0)
    ensures (exists j :: 0 <= j < |pages| && KeywordScore(keywords, pages[j].1) > 0)
            ==> exists i :: FirstTopPage(pages, keywords, i) && PageNumber(pages, keywords) == Ok(pages[i].0)
  {
    var scores := PageScores(pages, keywords);
    if |pages| > 0 {
      var m := MaxScore(scores);
      if exists j :: 0 <= j < |pages| && KeywordScore(keywords, pages[j].1) > 0 {
        var j :| 0 <= j < |pages| && KeywordScore(keywords, pages[j].1) > 0;
        assert scores[j].1 > 0;
        SortHead(scores, NegScore, false);
        BestIndexIsFirstBest(scores, NegScore, false);
        var i := BestIndex(scores, NegScore, false);
        TopPageOfBest(pages, keywords, i);
      } else {
        var k :| 0 <= k < |scores| && scores[k].1 == m;
      }
    }
  }

  // ---------------------------------------------------------------- flags

  /** `text.rstrip().endswith(':')`. */
  predicate EndsWithColon(text: string)
  {
    var r := RStrip(text);
    |r| > 0 && r[|r| - 1] == ':'
  }

  /** The flags `__init__` ORs into a block with the given text and font, starting from 0.  The
      keyword font counts only when it is a non-empty font name. */
  function BlockFlags(keywords: seq<string>, keywordFont: Option<string>, text: string, font: string): bv8
  {
    (if IsUpper(text) then UPPERCASE else 0)
    | (if EndsWithColon(text) then ENDSWITHCOLON else 0)
    | (if HasAnyKeyword(keywords, text) then HASKEYWORD else 0)
    | (if keywordFont.Some? && keywordFont.value != "" && font == keywordFont.value then KEYWORDFONT else 0)
  }

  /** Each bit of the flags answers one question about the block. */
  lemma BlockFlagBits(keywords: seq<string>, keywordFont: Option<string>, text: string, font: string)
    ensures var f := BlockFlags(keywords, keywordFont, text, font);
      && (f & UPPERCASE != 0 <==> IsUpper(text))
      && (f & ENDSWITHCOLON != 0 <==> EndsWithColon(text))
      && (f & HASKEYWORD != 0 <==> HasAnyKeyword(keywords, text))
      && (f & KEYWORDFONT != 0 <==> keywordFont.Some? && keywordFont.value != "" && font == keywordFont.value)
      && f & 0xF0 == 0
  {
  }

  /** `InfoPage.keyword_appears_in`: the keywords are tried in turn until one occurs. */
  method KeywordAppearsIn(keywords: seq<string>, s: string) returns (r: bool)
    ensures r == HasAnyKeyword(keywords, s)
  {
    var lowered := Lower(s);
    var i := 0;
    while i < |keywords|
      invariant 0 <= i <= |keywords|
      invariant forall j :: 0 <= j < i ==> !Contains(lowered, keywords[j])
    {
      if Contains(lowered, keywords[i]) {
        return true;
      }
      i := i + 1;
    }
    return false;
  }

  /** What a block looks like to the classification: its text, font, position and flags. */
  datatype Flagged = Flagged(text: string, font: string, bbox: BBox, flags: bv8)

  /** The blocks' current state, in page order. */
  function Snapshot(bs: seq<TextBlock>): (r: seq<Flagged>)
    reads bs
    ensures |r| == |bs|
    ensures forall i :: 0 <= i < |bs| ==> r[i] == Flagged(bs[i].text, bs[i].font, bs[i].bbox, bs[i].flags)
  {
    if |bs| == 0 then []
    else Snapshot(bs[..|bs| - 1]) + [Flagged(bs[|bs| - 1].text, bs[|bs| - 1].font, bs[|bs| - 1].bbox, bs[|bs| - 1].flags)]
  }

  /** The blocks a test keeps look like the blocks of the snapshot the same test keeps. */
  lemma {:induction false} SnapshotFilter(bs: seq<TextBlock>, p: TextBlock -> bool, q: Flagged -> bool)
    requires forall i :: 0 <= i < |bs| ==> p(bs[i]) == q(Snapshot(bs)[i])
    ensures Snapshot(Filter(bs, p)) == Filter(Snapshot(bs), q)
  {
    if |bs| > 0 {
      var n := |bs| - 1;
      assert Snapshot(bs)[..n] == Snapshot(bs[..n]);
      SnapshotFilter(bs[..n], p, q);
      var tail := if p(bs[n]) then [bs[n]] else [];
      assert Filter(bs, p) == Filter(bs[..n], p) + tail;
      assert Snapshot(Filter(bs[..n], p) + tail) == Snapshot(Filter(bs[..n], p)) + Snapshot(tail);
    }
  }

  // ---------------------------------------------------------------- group_by_font

  function FontOf(b: Flagged): string { b.font }

  /** The distinct fonts of the blocks.  The source iterates over a set, whose order Python does
      not fix; the model takes the order of first use. */
  function Fonts(fs: seq<Flagged>): (r: seq<string>)
    ensures forall f :: f in r <==> exists i :: 0 <= i < |fs| && fs[i].font == f
    ensures forall i, j :: 0 <= i < j < |r| ==> r[i] != r[j]
  {
    var all := seq(|fs|, i requires 0 <= i < |fs| => fs[i].font);
    FirstOccurrencesOfNames(all);
    assert forall f :: f in all <==> exists i :: 0 <= i < |fs| && fs[i].font == f by {
      forall f | f in all ensures exists i :: 0 <= i < |fs| && fs[i].font == f {
        var i :| 0 <= i < |all| && all[i] == f;
      }
      forall f | exists i :: 0 <= i < |fs| && fs[i].font == f ensures f in all {
        var i :| 0 <= i < |fs| && fs[i].font == f;
        assert all[i] == f;
      }
    }
    FirstOccurrences(all, Same)
  }

  /** The number of blocks in `font`. */
  function FontCount(fs: seq<Flagged>, font: string): (n: nat)
    ensures n <= |fs|
    ensures n == 0 <==> forall i :: 0 <= i < |fs| ==> fs[i].font != font
  {
    if |fs| == 0 then 0
    else
      var init := fs[..|fs| - 1];
      assert forall i :: 0 <= i < |init| ==> init[i] == fs[i];
      FontCount(init, font) + (if fs[|fs| - 1].font == font then 1 else 0)
  }

  /** The number of blocks in `font` with the keyword flag. */
  function FontKeywordCount(fs: seq<Flagged>, font: string): (k: nat)
    ensures k <= FontCount(fs, font)
    ensures (forall i :: 0 <= i < |fs| ==> fs[i].flags & HASKEYWORD == 0) ==> k == 0
  {
    if |fs| == 0 then 0
    else
      var init := fs[..|fs| - 1];
      assert forall i :: 0 <= i < |init| ==> init[i] == fs[i];
      var last := fs[|fs| - 1];
      FontKeywordCount(init, font) + (if last.font == font && last.flags & HASKEYWORD != 0 then 1 else 0)
  }

  /** `proportions[font]`: the share of the font's blocks that carry the keyword flag. */
  function Share(fs: seq<Flagged>, font: string): real
  {
    var n := FontCount(fs, font);
    if n == 0 then 0.0 else (FontKeywordCount(fs, font) as real) / (n as real)
  }

  /** The `proportions` dict, in the order of `fonts`. */
  function Proportions(fs: seq<Flagged>, fonts: seq<string>): (r: seq<(string, real)>)
    ensures |r| == |fonts|
    ensures forall i :: 0 <= i < |fonts| ==> r[i] == (fonts[i], Share(fs, fonts[i]))
  {
    if |fonts| == 0 then []
    else Proportions(fs, fonts[..|fonts| - 1]) + [(fonts[|fonts| - 1], Share(fs, fonts[|fonts| - 1]))]
  }

  /** `max(proportions.values())`. */
  function MaxShare(props: seq<(string, real)>): (m: real)
    requires |props| > 0
    ensures forall i :: 0 <= i < |props| ==> props[i].1 <= m
    ensures exists i :: 0 <= i < |props| && props[i].1 == m
  {
    if |props| == 1 then props[0].1
    else
      var m := MaxShare(props[1..]);
      assert forall i :: 1 <= i < |props| ==> props[i] == props[1..][i - 1];
      if props[0].1 >= m then props[0].1 else m
  }

  function NegShare(item: (string, real)): real { -item.1 }

  /** What `group_by_font` returns: no font when every share is below one half, else the first
      font of the shares sorted in descending order.  A page without blocks makes `max` raise
      ValueError. */
  function GroupByFontOf(fs: seq<Flagged>): Result<Option<string>>
  {
    var props := Proportions(fs, Fonts(fs));
    if |props| == 0 then Err("ValueError")
    else if MaxShare(props) < 0.5 then Ok(None)
    else Ok(Some(Sort(props, NegShare, false)[0].0))
  }

  /** `InfoPage.group_by_font` over the blocks `bs`: one share per font, then the best. */
  method GroupByFont(bs: seq<TextBlock>) returns (r: Result<Option<string>>)
    ensures r == GroupByFontOf(Snapshot(bs))
  {
    var fs := Snapshot(bs);
    var props := ProportionsOf(fs, Fonts(fs));
    if |props| == 0 {
      return Err("ValueError");
    }
    if MaxShare(props) < 0.5 {
      return Ok(None);
    }
    var sortedFonts := Sort(props, NegShare, false);
    r := Ok(Some(sortedFonts[0].0));
  }

  /** The loop of `group_by_font` that fills `proportions`, font by font. */
  method ProportionsOf(fs: seq<Flagged>, fonts: seq<string>) returns (props: seq<(string, real)>)
    ensures props == Proportions(fs, fonts)
  {
    props := [];
    var i := 0;
    while i < |fonts|
      invariant 0 <= i <= |fonts|
      invariant props == Proportions(fs, fonts[..i])
    {
      assert fonts[..i + 1][..i] == fonts[..i];
      var n := FontCount(fs, fonts[i]);
      var k := FontKeywordCount(fs, fonts[i]);
      props := props + [(fonts[i], if n == 0 then 0.0 else (k as real) / (n as real))];
      i := i + 1;
    }
    assert fonts[..i] == fonts;
  }

  /** `max` over the shares raises exactly when the page has no blocks. */
  lemma GroupByFontErr(fs: seq<Flagged>)
    ensures GroupByFontOf(fs).Err? <==> |fs| == 0
  {
    if |fs| > 0 {
      assert fs[0].font in Fonts(fs);
    }
  }

  /** A quotient of at least one half, without the division. */
  lemma DivAtLeastHalf(k: real, n: real)
    requires n > 0.0
    ensures k / n >= 0.5 <==> 2.0 * k >= n
  {
    var q := k / n;
    assert q * n == k;
    if q >= 0.5 {
      assert (q - 0.5) * n >= 0.0;
    } else {
      assert (0.5 - q) * n > 0.0;
    }
  }

  /** A quotient above one half, without the division. */
  lemma DivAboveHalf(k: real, n: real)
    requires n > 0.0
    ensures k / n > 0.5 <==> 2.0 * k > n
  {
    var q := k / n;
    assert q * n == k;
    if q > 0.5 {
      assert (q - 0.5) * n > 0.0;
    } else {
      assert (0.5 - q) * n >= 0.0;
    }
  }

  /** A share of at least one half, written as the integer comparison `2k >= n`. */
  lemma ShareAtLeastHalf(fs: seq<Flagged>, font: string)
    requires FontCount(fs, font) > 0
    ensures Share(fs, font) >= 0.5 <==> 2 * FontKeywordCount(fs, font) >= FontCount(fs, font)
  {
    DivAtLeastHalf(FontKeywordCount(fs, font) as real, FontCount(fs, font) as real);
  }

  /** No keyword font is chosen exactly when, in every font, fewer than half of the blocks carry
      the keyword flag. */
  lemma GroupByFontNone(fs: seq<Flagged>)
    requires |fs| > 0
    ensures GroupByFontOf(fs) == Ok(None) <==>
              forall i :: 0 <= i < |fs| ==> 2 * FontKeywordCount(fs, fs[i].font) < FontCount(fs, fs[i].font)
  {
    var fonts := Fonts(fs);
    var props := Proportions(fs, fonts);
    assert fs[0].font in fonts;
    forall i | 0 <= i < |fs| ensures FontCount(fs, fs[i].font) > 0 { }
    forall i | 0 <= i < |fs| ensures Share(fs, fs[i].font) < 0.5 <==> 2 * FontKeywordCount(fs, fs[i].font) < FontCount(fs, fs[i].font) {
      ShareAtLeastHalf(fs, fs[i].font);
    }
    if forall i :: 0 <= i < |fs| ==> 2 * FontKeywordCount(fs, fs[i].font) < FontCount(fs, fs[i].font) {
      forall j | 0 <= j < |props| ensures props[j].1 < 0.5 {
        assert fonts[j] in fonts;
        var i :| 0 <= i < |fs| && fs[i].font == fonts[j];
      }
    } else {
      var i :| 0 <= i < |fs| && 2 * FontKeywordCount(fs, fs[i].font) >= FontCount(fs, fs[i].font);
      assert fs[i].font in fonts;
      var j :| 0 <= j < |fonts| && fonts[j] == fs[i].font;
      assert props[j].1 >= 0.5;
    }
  }

  /** A chosen keyword font is the first font, in font order, whose share is the highest. */
  lemma GroupByFontBest(fs: seq<Flagged>)
    requires GroupByFontOf(fs).Ok? && GroupByFontOf(fs).value.Some?
    ensures var fonts := Fonts(fs);
      exists i :: IsFirstBest(Proportions(fs, fonts), NegShare, false, i)
        && GroupByFontOf(fs).value.value == fonts[i] && Share(fs, fonts[i]) >= 0.5
  {
    var props := Proportions(fs, Fonts(fs));
    SortHead(props, NegShare, false);
    BestIndexIsFirstBest(props, NegShare, false);
    var i := BestIndex(props, NegShare, false);
    var m := MaxShare(props);
    var k :| 0 <= k < |props| && props[k].1 == m;
    FirstBestKey(props, NegShare, false, i, k);
  }

  /** As written, `__init__` asks for the keyword font before any keyword flag is set, so on
      fresh blocks no keyword font is ever found. */
  lemma GroupByFontUnflagged(fs: seq<Flagged>)
    requires |fs| > 0
    requires forall i :: 0 <= i < |fs| ==> fs[i].flags == 0
    ensures GroupByFontOf(fs) == Ok(None)
  {
    GroupByFontNone(fs);
  }

  // ---------------------------------------------------------------- check_attributes

  function ColonCounts(fs: seq<Flagged>): (r: (nat, nat))
    ensures r.0 <= r.1 <= |fs|
  {
    if |fs| == 0 then (0, 0)
    else
      var (k, n) := ColonCounts(fs[..|fs| - 1]);
      var b := fs[|fs| - 1];
      if b.flags & ENDSWITHCOLON == 0 then (k, n)
      else (k + (if b.flags & HASKEYWORD != 0 then 1 else 0), n + 1)
  }

  /** Upper-case blocks that do not mention ISBN or ISSN. */
  predicate UpperLabel(b: Flagged)
  {
    b.flags & UPPERCASE != 0 && !(Contains(b.text, "ISBN") || Contains(b.text, "ISSN"))
  }

  function UpperCounts(fs: seq<Flagged>): (r: (nat, nat))
    ensures r.0 <= r.1 <= |fs|
  {
    if |fs| == 0 then (0, 0)
    else
      var (k, n) := UpperCounts(fs[..|fs| - 1]);
      var b := fs[|fs| - 1];
      if !UpperLabel(b) then (k, n)
      else (k + (if b.flags & HASKEYWORD != 0 then 1 else 0), n + 1)
  }

  /** More than half, written as the integer comparison `2k > n`; never true of no blocks. */
  predicate Majority(c: (nat, nat)) { 2 * c.0 > c.1 }

  /** The ratio test of the source: `n > 0 and k / n > 0.5`. */
  lemma MajorityRatio(c: (nat, nat))
    requires c.0 <= c.1
    ensures Majority(c) <==> c.1 > 0 && (c.0 as real) / (c.1 as real) > 0.5
  {
    if c.1 > 0 {
      DivAboveHalf(c.0 as real, c.1 as real);
      assert (2 * c.0) as real == 2.0 * (c.0 as real);
      assert 2 * c.0 > c.1 <==> (2 * c.0) as real > c.1 as real;
    }
  }

  // ---------------------------------------------------------------- the page

  /** Python `min(bs, key=...)`: the first block with the least key. */
  function MinBy(bs: seq<TextBlock>, key: TextBlock -> real): (b: TextBlock)
    requires |bs| > 0
    ensures b in bs
  {
    bs[BestIndex(bs, key, false)]
  }

  function Left(b: TextBlock): real { b.bbox.x0 }
  function Top(b: TextBlock): real { b.bbox.y0 }

  /** The candidates of `get_value_neighbour`: the leftmost block of the line, then the topmost
      block of the column, each when there is one. */
  function NeighbourCandidates(line: seq<TextBlock>, column: seq<TextBlock>): (r: seq<TextBlock>)
    ensures |r| == (if |line| > 0 then 1 else 0) + (if |column| > 0 then 1 else 0)
  {
    (if |line| > 0 then [MinBy(line, Left)] else []) + (if |column| > 0 then [MinBy(column, Top)] else [])
  }

  function ScoreKey(c: (TextBlock, nat)): real { c.1 as real }

  /** The penalty of a candidate with flags `flags`: one point for the keyword font, and one per
      label trait (colon, upper case) the page uses that the candidate shows. */
  function FlagPenalty(flags: bv8, colon: bool, upper: bool): (p: nat)
    ensures p <= 3
  {
    (if flags & KEYWORDFONT != 0 then 1 else 0)
    + (if flags & UPPERCASE != 0 && upper then 1 else 0)
    + (if flags & ENDSWITHCOLON != 0 && colon then 1 else 0)
  }

  predicate IsTitleLabel(t: string) { Contains(Lower(t), "title") || Contains(Lower(t), "tittel") }

  predicate IsAuthorLabel(pats: Patterns, t: string) { pats.authorLabelMatch(Lower(t)) }

  // ---------------------------------------------------------------- the page as values

  /** The block of `bs` with the first least key looks like the block of the snapshot with the
      first least key, when the keys agree. */
  lemma SnapshotBest(bs: seq<TextBlock>, key: TextBlock -> real, key': Flagged -> real)
    requires |bs| > 0 && forall i :: 0 <= i < |bs| ==> key(bs[i]) == key'(Snapshot(bs)[i])
    ensures var j := BestIndex(bs, key, false);
      Snapshot(bs)[BestIndex(Snapshot(bs), key', false)] == Flagged(bs[j].text, bs[j].font, bs[j].bbox, bs[j].flags)
  {
    BestIndexOfKeys(bs, key, Snapshot(bs), key', false);
  }

  /** The blocks an info page holds once built from `raw` with `keywords`: one per kept span,
      with the text, font and position of the span and the flags of `__init__` (the keyword
      font is never set, since it is asked for while every flag is still clear). */
  function InfoBlocks(raw: seq<RawBlock>, keywords: seq<string>): (r: seq<Flagged>)
    ensures |r| == |KeptSpans(raw)|
    ensures forall i :: 0 <= i < |r| ==> var s := KeptSpans(raw)[i];
              r[i] == Flagged(BlockText(s.text), s.font, s.bbox, BlockFlags(keywords, None, BlockText(s.text), s.font))
  {
    Map(KeptSpans(raw), (s: Span) => Flagged(BlockText(s.text), s.font, s.bbox, BlockFlags(keywords, None, BlockText(s.text), s.font)))
  }

  /** The tests of `get_line_and_column` on blocks as values, letters required. */
  function FlaggedLineTest(at: BBox, slackY: real): Flagged -> bool
  {
    (f: Flagged) => OnLineOf(at, f.bbox, f.text, slackY, true)
  }

  function FlaggedColumnTest(at: BBox, slackX: real): Flagged -> bool
  {
    (f: Flagged) => OnColumnOf(at, f.bbox, f.text, slackX, true)
  }

  function FlaggedLeft(f: Flagged): real { f.bbox.x0 }
  function FlaggedTop(f: Flagged): real { f.bbox.y0 }

  /** The value next to the block at `at` among the blocks `fs` of a page whose label traits
      are `colon` and `upper`: the leftmost lettered block on its line and the topmost lettered
      block in its column; of two, the one with the lower penalty, the line's on a tie. */
  function NeighbourValue(fs: seq<Flagged>, at: BBox, colon: bool, upper: bool, slackX: real, slackY: real): Option<string>
  {
    PickNeighbour(Filter(fs, FlaggedLineTest(at, slackY)), Filter(fs, FlaggedColumnTest(at, slackX)), colon, upper)
  }

  /** The choice between the blocks on the line and those in the column. */
  function PickNeighbour(line: seq<Flagged>, column: seq<Flagged>, colon: bool, upper: bool): Option<string>
  {
    if |line| == 0 && |column| == 0 then None
    else if |column| == 0 then Some(line[BestIndex(line, FlaggedLeft, false)].text)
    else if |line| == 0 then Some(column[BestIndex(column, FlaggedTop, false)].text)
    else
      var l, c := line[BestIndex(line, FlaggedLeft, false)], column[BestIndex(column, FlaggedTop, false)];
      Some(if FlagPenalty(c.flags, colon, upper) < FlagPenalty(l.flags, colon, upper) then c.text else l.text)
  }

  /** The position of the first block whose text is a label. */
  function LabelIndex(fs: seq<Flagged>, isLabel: string -> bool): (r: Option<nat>)
    ensures r.Some? ==> r.value < |fs| && isLabel(fs[r.value].text) && forall j :: 0 <= j < r.value ==> !isLabel(fs[j].text)
    ensures r.None? ==> forall j :: 0 <= j < |fs| ==> !isLabel(fs[j].text)
  {
    FirstIndex(fs, (f: Flagged) => isLabel(f.text))
  }

  /** The value `find_title` finds among blocks `fs`. */
  function TitleValue(fs: seq<Flagged>, colon: bool, upper: bool): Option<string>
  {
    match LabelIndex(fs, IsTitleLabel)
    case None => None
    case Some(i) => NeighbourValue(fs, fs[i].bbox, colon, upper, 10.0, 10.0)
  }

  /** The value `find_publisher` finds among blocks `fs`. */
  function PublisherValue(fs: seq<Flagged>, colon: bool, upper: bool, pats: Patterns): Option<string>
  {
    match LabelIndex(fs, (t: string) => IsPublisherLabel(pats, t))
    case None => None
    case Some(i) => NeighbourValue(fs, fs[i].bbox, colon, upper, 10.0, 10.0)
  }

  /** The names `find_author` finds among blocks `fs`. */
  function AuthorValue(fs: seq<Flagged>, colon: bool, upper: bool, pats: Patterns): Option<seq<string>>
  {
    match LabelIndex(fs, (t: string) => IsAuthorLabel(pats, t))
    case None => None
    case Some(i) =>
      match NeighbourValue(fs, fs[i].bbox, colon, upper, 10.0, 10.0)
      case None => None
      case Some(t) => if t == "" then None else GetAuthorNames(pats, t)
  }

  /** The choice made on the snapshot of the blocks on the line and in the column is the one
      `get_value_neighbour` makes on the blocks themselves. */
  lemma PickOfSnapshot(line: seq<TextBlock>, column: seq<TextBlock>, colon: bool, upper: bool)
    ensures PickNeighbour(Snapshot(line), Snapshot(column), colon, upper)
            == if |line| == 0 && |column| == 0 then None
               else if |column| == 0 then Some(MinBy(line, Left).text)
               else if |line| == 0 then Some(MinBy(column, Top).text)
               else
                 var l, c := MinBy(line, Left), MinBy(column, Top);
                 Some(if FlagPenalty(c.flags, colon, upper) < FlagPenalty(l.flags, colon, upper) then c.text else l.text)
  {
    if |line| > 0 {
      SnapshotBest(line, Left, FlaggedLeft);
      assert MinBy(line, Left) == line[BestIndex(line, Left, false)];
    }
    if |column| > 0 {
      SnapshotBest(column, Top, FlaggedTop);
      assert MinBy(column, Top) == column[BestIndex(column, Top, false)];
    }
  }

  /** The title, the publisher and the authors an info page yields. */
  type InfoValues = (Option<string>, Option<string>, Option<seq<string>>)

  /** What the info page built from `raw` with `keywords` yields: its blocks, its label traits
      as `check_attributes` decides them, then the three lookups. */
  function InfoValuesOf(raw: seq<RawBlock>, keywords: seq<string>, pats: Patterns): InfoValues
  {
    var fs := InfoBlocks(raw, keywords);
    var colon, upper := Majority(ColonCounts(fs)), Majority(UpperCounts(fs));
    (TitleValue(fs, colon, upper), PublisherValue(fs, colon, upper, pats), AuthorValue(fs, colon, upper, pats))
  }

  /** An info page: a page whose blocks carry classification flags. */
  class InfoPage {
    const page: Page
    const keywords: seq<string>
    var keywordFont: Option<string>
    var upperAttr: bool
    var colonAttr: bool

    /** The penalty of a candidate block on this page. */
    function Penalty(b: TextBlock): (p: nat)
      reads this, b
      ensures p <= 3
    {
      FlagPenalty(b.flags, colonAttr, upperAttr)
    }

    /** `__init__` after `Page.__init__`: the keyword font is computed, every block gets its
        flags, then the label traits are checked.  The blocks must be distinct, fresh from the
        page, and not empty (the error path is `MakeInfoPage`). */
    constructor (page: Page, keywords: seq<string>, keywordFont: Option<string>)
      requires Distinct(page.textBlocks)
      requires forall i :: 0 <= i < |page.textBlocks| ==> page.textBlocks[i].flags == 0
      modifies page.textBlocks
      ensures this.page == page && this.keywords == keywords && this.keywordFont == keywordFont
      ensures forall i :: 0 <= i < |page.textBlocks| ==>
                page.textBlocks[i].flags == BlockFlags(keywords, keywordFont, page.textBlocks[i].text, page.textBlocks[i].font)
      ensures colonAttr == Majority(ColonCounts(Snapshot(page.textBlocks)))
      ensures upperAttr == Majority(UpperCounts(Snapshot(page.textBlocks)))
    {
      SetAllFlags(page.textBlocks, keywords, keywordFont);
      var colon, upper := LabelTraits(page.textBlocks, false, false);
      this.page := page;
      this.keywords := keywords;
      this.keywordFont := keywordFont;
      upperAttr := upper;
      colonAttr := colon;
    }

    /** `check_attributes`: a trait is used for labels when more than half of the blocks showing
        it carry the keyword flag; a trait no block shows keeps its value. */
    method CheckAttributes()
      modifies this
      ensures keywordFont == old(keywordFont)
      ensures var c := ColonCounts(old(Snapshot(page.textBlocks)));
        colonAttr == if c.1 > 0 then Majority(c) else old(colonAttr)
      ensures var c := UpperCounts(old(Snapshot(page.textBlocks)));
        upperAttr == if c.1 > 0 then Majority(c) else old(upperAttr)
    {
      var colon, upper := LabelTraits(page.textBlocks, colonAttr, upperAttr);
      colonAttr, upperAttr := colon, upper;
    }

    /** What `get_value_neighbour` returns for `block`. */
    function ValueNeighbour(block: TextBlock, slackX: real, slackY: real): Option<string>
      reads this, page.textBlocks
    {
      var (line, column) := page.LineAndColumn(block, slackX, slackY, true);
      page.LineAndColumnMembers(block, slackX, slackY, true);
      var cands := NeighbourCandidates(line, column);
      if |cands| == 0 then None
      else if |cands| == 1 then Some(cands[0].text)
      else Some(Sort([(cands[0], Penalty(cands[0])), (cands[1], Penalty(cands[1]))], ScoreKey, false)[0].0.text)
    }

    /** The scoring loop of `get_value_neighbour`: each candidate with its penalty. */
    method Penalties(cands: seq<TextBlock>) returns (scored: seq<(TextBlock, nat)>)
      ensures |scored| == |cands|
      ensures forall k :: 0 <= k < |cands| ==> scored[k] == (cands[k], Penalty(cands[k]))
    {
      scored := [];
      var i := 0;
      while i < |cands|
        invariant 0 <= i <= |cands|
        invariant |scored| == i
        invariant forall k :: 0 <= k < i ==> scored[k] == (cands[k], Penalty(cands[k]))
      {
        var score := PenaltyOf(cands[i]);
        scored := scored + [(cands[i], score)];
        i := i + 1;
      }
    }

    /** One candidate's penalty, point by point. */
    method PenaltyOf(b: TextBlock) returns (score: nat)
      ensures score == Penalty(b)
    {
      score := 0;
      if b.flags & KEYWORDFONT != 0 {
        score := score + 1;
      }
      if b.flags & UPPERCASE != 0 && upperAttr {
        score := score + 1;
      }
      if b.flags & ENDSWITHCOLON != 0 && colonAttr {
        score := score + 1;
      }
    }

    /** `get_value_neighbour`: each candidate's penalty is counted up, then the candidates are
        sorted by penalty and the first one's text is returned. */
    method GetValueNeighbour(block: TextBlock, slackX: real, slackY: real) returns (r: Option<string>)
      ensures r == ValueNeighbour(block, slackX, slackY)
    {
      var (line, column) := page.LineAndColumn(block, slackX, slackY, true);
      var cands := NeighbourCandidates(line, column);
      if |cands| == 0 {
        return None;
      }
      if |cands| == 1 {
        return Some(cands[0].text);
      }
      var scored := Penalties(cands);
      assert scored == [(cands[0], Penalty(cands[0])), (cands[1], Penalty(cands[1]))];
      var sortedCands := Sort(scored, ScoreKey, false);
      r := Some(sortedCands[0].0.text);
    }

    /** No neighbour on the line or in the column gives no value; a single candidate gives its
        text whatever its flags; of two, the one with the lower penalty wins and a tie goes to
        the block on the line. */
    lemma ValueNeighbourSpec(block: TextBlock, slackX: real, slackY: real)
      ensures var (line, column) := page.LineAndColumn(block, slackX, slackY, true);
        && (ValueNeighbour(block, slackX, slackY).None? <==> |line| == 0 && |column| == 0)
        && (|line| > 0 && |column| == 0 ==> ValueNeighbour(block, slackX, slackY) == Some(MinBy(line, Left).text))
        && (|line| == 0 && |column| > 0 ==> ValueNeighbour(block, slackX, slackY) == Some(MinBy(column, Top).text))
        && (|line| > 0 && |column| > 0 ==>
              var l, c := MinBy(line, Left), MinBy(column, Top);
              ValueNeighbour(block, slackX, slackY) == Some(if Penalty(c) < Penalty(l) then c.text else l.text))
    {
      var (line, column) := page.LineAndColumn(block, slackX, slackY, true);
      if |line| > 0 && |column| > 0 {
        var l, c := MinBy(line, Left), MinBy(column, Top);
        var s: seq<(TextBlock, nat)> := [(l, Penalty(l)), (c, Penalty(c))];
        assert NeighbourCandidates(line, column) == [l, c];
        assert s[1..] == [(c, Penalty(c))] && |s[1..][1..]| == 0;
        assert Sort(s[1..], ScoreKey, false) == [(c, Penalty(c))];
      }
    }

    /** The value next to a block is the one the blocks of the page, taken as values, give. */
    lemma ValueNeighbourOfBlocks(block: TextBlock, slackX: real, slackY: real)
      ensures ValueNeighbour(block, slackX, slackY)
              == NeighbourValue(Snapshot(page.textBlocks), block.bbox, colonAttr, upperAttr, slackX, slackY)
    {
      ValueNeighbourSpec(block, slackX, slackY);
      var bs := page.textBlocks;
      var line, column := Filter(bs, LineTest(block.bbox, slackY, true)), Filter(bs, ColumnTest(block.bbox, slackX, true));
      assert page.LineAndColumn(block, slackX, slackY, true) == (line, column);
      SnapshotFilter(bs, LineTest(block.bbox, slackY, true), FlaggedLineTest(block.bbox, slackY));
      SnapshotFilter(bs, ColumnTest(block.bbox, slackX, true), FlaggedColumnTest(block.bbox, slackX));
      assert NeighbourValue(Snapshot(bs), block.bbox, colonAttr, upperAttr, slackX, slackY)
             == PickNeighbour(Snapshot(line), Snapshot(column), colonAttr, upperAttr);
      PickOfSnapshot(line, column, colonAttr, upperAttr);
    }

    // ------------------------------------------------------------ labels and their values

    /** The title the page yields is the one its blocks, taken as values, give with its label
        traits; so are the publisher and the authors (below). */
    lemma TitleOfBlocks()
      ensures TitleOf() == TitleValue(Snapshot(page.textBlocks), colonAttr, upperAttr)
    {
      var t := LabelIndex(Snapshot(page.textBlocks), IsTitleLabel);
      assert t == TitleBlockIndex();
      if t.Some? {
        ValueNeighbourOfBlocks(page.textBlocks[t.value], 10.0, 10.0);
      }
    }

    lemma PublisherOfBlocks(pats: Patterns)
      ensures PublisherOf(pats) == PublisherValue(Snapshot(page.textBlocks), colonAttr, upperAttr, pats)
    {
      var p := LabelIndex(Snapshot(page.textBlocks), (t: string) => IsPublisherLabel(pats, t));
      assert p == page.PublisherBlockIndex(pats);
      if p.Some? {
        ValueNeighbourOfBlocks(page.textBlocks[p.value], 10.0, 10.0);
      }
    }

    lemma AuthorOfBlocks(pats: Patterns)
      ensures AuthorOf(pats) == AuthorValue(Snapshot(page.textBlocks), colonAttr, upperAttr, pats)
    {
      var a := LabelIndex(Snapshot(page.textBlocks), (t: string) => IsAuthorLabel(pats, t));
      assert a == AuthorBlockIndex(pats);
      if a.Some? {
        ValueNeighbourOfBlocks(page.textBlocks[a.value], 10.0, 10.0);
      }
    }

    /** The position of the first block mentioning a title. */
    function TitleBlockIndex(): (r: Option<nat>)
      ensures r.Some? ==> r.value < |page.textBlocks| && IsTitleLabel(page.textBlocks[r.value].text)
      ensures r.Some? ==> forall j :: 0 <= j < r.value ==> !IsTitleLabel(page.textBlocks[j].text)
      ensures r.None? ==> forall j :: 0 <= j < |page.textBlocks| ==> !IsTitleLabel(page.textBlocks[j].text)
    {
      FirstIndex(page.textBlocks, (b: TextBlock) => IsTitleLabel(b.text))
    }

    /** What `find_title` returns: the value next to the first block mentioning a title. */
    function TitleOf(): Option<string>
      reads this, page.textBlocks
    {
      match TitleBlockIndex()
      case None => None
      case Some(i) => ValueNeighbour(page.textBlocks[i], 10.0, 10.0)
    }

    /** What `find_publisher` returns: the value next to the first publisher label. */
    function PublisherOf(pats: Patterns): Option<string>
      reads this, page.textBlocks
    {
      match page.PublisherBlockIndex(pats)
      case None => None
      case Some(i) => ValueNeighbour(page.textBlocks[i], 10.0, 10.0)
    }

    /** `find_title`: the value next to the first block mentioning "title" or "tittel". */
    method FindTitle() returns (r: Option<string>)
      ensures r == TitleOf()
    {
      var bs := page.textBlocks;
      var i := 0;
      while i < |bs|
        invariant 0 <= i <= |bs|
        invariant forall j :: 0 <= j < i ==> !IsTitleLabel(bs[j].text)
      {
        if IsTitleLabel(bs[i].text) {
          assert TitleBlockIndex() == Some(i);
          r := GetValueNeighbour(bs[i], 10.0, 10.0);
          return;
        }
        i := i + 1;
      }
      return None;
    }

    /** `find_publisher`: the value next to the publisher label. */
    method FindPublisher(pats: Patterns) returns (r: Option<string>)
      ensures r == PublisherOf(pats)
    {
      var block := page.FindPublisherBlock(pats);
      if block == null {
        return None;
      }
      r := GetValueNeighbour(block, 10.0, 10.0);
    }

    /** The position of the first block starting with the author label. */
    function AuthorBlockIndex(pats: Patterns): (r: Option<nat>)
      ensures r.Some? ==> r.value < |page.textBlocks| && IsAuthorLabel(pats, page.textBlocks[r.value].text)
      ensures r.Some? ==> forall j :: 0 <= j < r.value ==> !IsAuthorLabel(pats, page.textBlocks[j].text)
      ensures r.None? ==> forall j :: 0 <= j < |page.textBlocks| ==> !IsAuthorLabel(pats, page.textBlocks[j].text)
    {
      FirstIndex(page.textBlocks, (b: TextBlock) => IsAuthorLabel(pats, b.text))
    }

    /** What `find_author` returns: the names in the value next to the author label; a missing or
        empty value gives no names. */
    function AuthorOf(pats: Patterns): Option<seq<string>>
      reads this, page.textBlocks
    {
      match AuthorBlockIndex(pats)
      case None => None
      case Some(i) =>
        match ValueNeighbour(page.textBlocks[i], 10.0, 10.0)
        case None => None
        case Some(t) => if t == "" then None else GetAuthorNames(pats, t)
    }

    /** The title, the publisher and the authors, asked for in turn. */
    method Values(pats: Patterns) returns (title: Option<string>, publisher: Option<string>, authors: Option<seq<string>>)
      ensures title == old(TitleOf()) && publisher == old(PublisherOf(pats)) && authors == old(AuthorOf(pats))
    {
      title := FindTitle();
      ValuesFrame(pats);
      publisher := FindPublisher(pats);
      ValuesFrame(pats);
      authors := FindAuthor(pats);
      ValuesFrame(pats);
    }

    /** The three values depend only on state that asking for them leaves untouched. */
    twostate lemma ValuesFrame(pats: Patterns)
      requires unchanged(this) && unchanged(page.textBlocks)
      ensures old(TitleOf()) == TitleOf() && old(PublisherOf(pats)) == PublisherOf(pats)
      ensures old(AuthorOf(pats)) == AuthorOf(pats)
    {
    }

    /** `find_author`. */
    method FindAuthor(pats: Patterns) returns (r: Option<seq<string>>)
      ensures r == AuthorOf(pats)
    {
      var bs := page.textBlocks;
      var i := 0;
      while i < |bs|
        invariant 0 <= i <= |bs|
        invariant forall j :: 0 <= j < i ==> !IsAuthorLabel(pats, bs[j].text)
      {
        if IsAuthorLabel(pats, bs[i].text) {
          assert AuthorBlockIndex(pats) == Some(i);
          var authorText := GetValueNeighbour(bs[i], 10.0, 10.0);
          if authorText.Some? && authorText.value != "" {
            return GetAuthorNames(pats, authorText.value);
          }
          return None;
        }
        i := i + 1;
      }
      return None;
    }

    /** Authors are found only next to an author label, and what is found are the names of the
        value: trimmed, free of capital runs and each once. */
    lemma AuthorOfSpec(pats: Patterns)
      ensures AuthorOf(pats).Some? ==> AuthorBlockIndex(pats).Some?
      ensures AuthorOf(pats).Some? ==>
                var v := ValueNeighbour(page.textBlocks[AuthorBlockIndex(pats).value], 10.0, 10.0);
                v.Some? && v.value != "" && AuthorOf(pats) == GetAuthorNames(pats, v.value)
      ensures AuthorOf(pats).Some? ==> forall i, j :: 0 <= i < j < |AuthorOf(pats).value| ==>
                AuthorOf(pats).value[i] != AuthorOf(pats).value[j]
      ensures AuthorOf(pats).Some? ==> forall x :: x in AuthorOf(pats).value ==> Trimmed(x) && !HasCapitalRun(x)
    {
      if AuthorOf(pats).Some? {
        var i := AuthorBlockIndex(pats).value;
        var t := ValueNeighbour(page.textBlocks[i], 10.0, 10.0).value;
        GetAuthorNamesSpec(pats, t);
      }
    }
  }

  /** The questions `__init__` asks of one block, each answered by its bit. */
  method FlagsOf(text: string, font: string, keywords: seq<string>, keywordFont: Option<string>)
    returns (add: bv8)
    ensures add == BlockFlags(keywords, keywordFont, text, font)
  {
    var upper := IsUpper(text);
    var colon := EndsWithColon(text);
    var hasKeyword := KeywordAppearsIn(keywords, text);
    var inKeywordFont := keywordFont.Some? && keywordFont.value != "" && font == keywordFont.value;
    add := 0;
    if upper {
      add := add | UPPERCASE;
    }
    if colon {
      add := add | ENDSWITHCOLON;
    }
    if hasKeyword {
      add := add | HASKEYWORD;
    }
    if inKeywordFont {
      add := add | KEYWORDFONT;
    }
  }

  /** One turn of the flag loop of `__init__`: the bits are ORed into the block. */
  method SetFlags(b: TextBlock, keywords: seq<string>, keywordFont: Option<string>)
    modifies b
    ensures b.flags == old(b.flags) | BlockFlags(keywords, keywordFont, b.text, b.font)
  {
    var add := FlagsOf(b.text, b.font, keywords, keywordFont);
    b.flags := b.flags | add;
  }

  /** What `check_attributes` decides for blocks `bs`: a trait is used for labels when more
      than half of the blocks showing it carry the keyword flag; a trait no block shows keeps
      its previous value. */
  method LabelTraits(bs: seq<TextBlock>, colon0: bool, upper0: bool) returns (colon: bool, upper: bool)
    ensures var c := ColonCounts(Snapshot(bs)); colon == if c.1 > 0 then Majority(c) else colon0
    ensures var c := UpperCounts(Snapshot(bs)); upper == if c.1 > 0 then Majority(c) else upper0
  {
    var fs := Snapshot(bs);
    colon, upper := colon0, upper0;
    var colonCounts := ColonCounts(fs);
    if colonCounts.1 > 0 {
      colon := colonCounts.1 > 0 && 2 * colonCounts.0 > colonCounts.1;
    }
    var upperCounts := UpperCounts(fs);
    if upperCounts.1 > 0 {
      upper := upperCounts.1 > 0 && 2 * upperCounts.0 > upperCounts.1;
    }
  }

  /** The flag loop of `__init__`: every block, still unflagged, gets its flags. */
  method SetAllFlags(bs: seq<TextBlock>, keywords: seq<string>, keywordFont: Option<string>)
    requires Distinct(bs) && forall i :: 0 <= i < |bs| ==> bs[i].flags == 0
    modifies bs
    ensures forall k :: 0 <= k < |bs| ==> bs[k].flags == BlockFlags(keywords, keywordFont, bs[k].text, bs[k].font)
  {
    var i := 0;
    while i < |bs|
      invariant 0 <= i <= |bs|
      invariant forall k :: 0 <= k < |bs| ==>
                  bs[k].flags == if k < i then BlockFlags(keywords, keywordFont, bs[k].text, bs[k].font) else 0
    {
      SetFlags(bs[i], keywords, keywordFont);
      i := i + 1;
    }
  }

  /** Block `b` shows the text, the font and the position span `s` gives it. */
  predicate SpanLook(b: TextBlock, s: Span)
  {
    b.text == BlockText(s.text) && b.font == s.font && b.bbox == s.bbox
  }

  /** Blocks built from the kept spans of `raw`, their flags set, look like `InfoBlocks`. */
  lemma InfoBlocksOf(bs: seq<TextBlock>, raw: seq<RawBlock>, keywords: seq<string>)
    requires |bs| == |KeptSpans(raw)| && forall i :: 0 <= i < |bs| ==> SpanLook(bs[i], KeptSpans(raw)[i])
    requires forall i :: 0 <= i < |bs| ==> bs[i].flags == BlockFlags(keywords, None, bs[i].text, bs[i].font)
    ensures Snapshot(bs) == InfoBlocks(raw, keywords)
  {
  }

  /** `InfoPage(doc, pagenr)` on the text dictionary of the page: the page is built, the keyword
      font is asked for while every flag is still clear, and then the flags are set.  A page
      without text blocks makes `group_by_font` raise ValueError. */
  method MakeInfoPage(raw: seq<RawBlock>, keywords: seq<string>) returns (r: Result<InfoPage>)
    ensures r.Err? <==> |KeptSpans(raw)| == 0
    ensures r.Err? ==> r.error == "ValueError"
    ensures r.Ok? ==> fresh(r.value) && |r.value.page.textBlocks| == |KeptSpans(raw)|
    ensures r.Ok? ==> r.value.keywords == keywords && r.value.keywordFont == None
    ensures r.Ok? ==> var bs := r.value.page.textBlocks;
              forall i :: 0 <= i < |bs| ==> bs[i].flags == BlockFlags(keywords, None, bs[i].text, bs[i].font)
    ensures r.Ok? ==> Snapshot(r.value.page.textBlocks) == InfoBlocks(raw, keywords)
    ensures r.Ok? ==> r.value.colonAttr == Majority(ColonCounts(InfoBlocks(raw, keywords)))
                      && r.value.upperAttr == Majority(UpperCounts(InfoBlocks(raw, keywords)))
  {
    var page := new Page(raw);
    var keywordFont := GroupByFont(page.textBlocks);
    ghost var fs := Snapshot(page.textBlocks);
    GroupByFontErr(fs);
    if keywordFont.Err? {
      return Err(keywordFont.error);
    }
    assert forall i :: 0 <= i < |fs| ==> fs[i].flags == 0 && SpanLook(page.textBlocks[i], KeptSpans(raw)[i]) by {
      forall i | 0 <= i < |fs| ensures fs[i].flags == 0 && SpanLook(page.textBlocks[i], KeptSpans(raw)[i]) {
        assert MadeFrom(page.textBlocks[i], KeptSpans(raw)[i]);
      }
    }
    GroupByFontUnflagged(fs);
    var infoPage := new InfoPage(page, keywords, keywordFont.value);
    InfoBlocksOf(page.textBlocks, raw, keywords);
    r := Ok(infoPage);
  }
}
