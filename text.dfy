// Strings and patterns (metadata_extract/text.py).  The fixed ASCII patterns are written out;
// the patterns compiled from the label tables, and the Unicode name pattern, are supplied as
// the functions of a `Patterns` value.

module Text {
  import opened Common
  import opened Strings
  import opened Dicts

  /** What the data-driven patterns answer.  Each field stands for one compiled pattern. */
  datatype Patterns = Patterns(
    nameFindAll: string -> seq<string>,          // name_pattern().findall(text)
    publisherLabelMatch: string -> Option<nat>,  // publisher_label().match(text): end of the match
    authorLabelMatch: string -> bool,            // author_label().match(text) succeeds
    reportLabel: string -> bool,                 // the report-label alternation matches exactly this text
    reportTypeSearch: string -> Option<string>,  // type_pattern_1().search(text).group(1)
    bindingWordSplit: string -> seq<string>,     // binding_word_pattern().split(text)
    specialCharAndBindingSub: string -> string,  // special_char_and_binding_pattern().sub('', text)
    photographSearch: string -> bool,            // photograph_label() found in text
    eIsxnMatches: string -> nat,                 // number of findall matches of the e-ISxN markers
    pIsxnMatches: string -> nat)                 // number of findall matches of the p-ISxN markers

  // ---------------------------------------------------------------- ValueAndContext

  /** A value found in the text, with the text around it. */
  class ValueAndContext {
    var value: string
    var context: Option<string>

    constructor (value: string, context: Option<string>)
      ensures this.value == value && this.context == context
    {
      this.value := value;
      this.context := context;
    }

    /** `append_to_context`: a missing or empty context counts as the empty string. */
    method AppendToContext(extra: string)
      modifies this
      ensures value == old(value)
      ensures context == Some(old(context).GetOr("") + extra)
    {
      context := Some(context.GetOr("") + extra);
    }
  }

  // ---------------------------------------------------------------- normalisation

  /** `substitute_non_alphanumeric`: every run of non-word characters becomes one space, then strip. */
  function SubstituteNonAlphanumeric(s: string): string
  {
    Strip(CollapseRuns(s, IsNonWordChar))
  }

  /** Lower-casing before or after the normalisation gives the same text. */
  lemma SubstituteNonAlphanumericLower(s: string)
    ensures SubstituteNonAlphanumeric(Lower(s)) == Lower(SubstituteNonAlphanumeric(s))
  {
    forall c ensures IsNonWordChar(ToLowerChar(c)) == IsNonWordChar(c) { ToLowerCharClasses(c); }
    CollapseRunsLower(s, IsNonWordChar);
    StripLower(CollapseRuns(s, IsNonWordChar));
  }

  /** `clean_whitespace`: every run of whitespace becomes one space, then strip. */
  function CleanWhitespace(s: string): string
  {
    Strip(CollapseRuns(s, IsSpace))
  }

  /** `substitute_special_char_and_binding`: the label substitution, double spaces halved, stripped. */
  function SubstituteSpecialCharAndBinding(pats: Patterns, s: string): string
  {
    Strip(Replace(pats.specialCharAndBindingSub(s), "  ", " "))
  }

  function SplitOnBindingWord(pats: Patterns, s: string): seq<string> { pats.bindingWordSplit(s) }

  predicate HasNonAuthorKeywords(pats: Patterns, s: string) { pats.photographSearch(s) }

  // ---------------------------------------------------------------- find_in_pages

  /** The title occurs on the page as a run of whole tokens once both are normalised. */
  predicate TitleOnPage(title: string, page: string)
  {
    Contains(" " + SubstituteNonAlphanumeric(page) + " ", " " + SubstituteNonAlphanumeric(title) + " ")
  }

  function Min(a: int, b: int): int { if a < b then a else b }

  /** The search of `find_in_pages` from page `p + 1` on, up to page `n`: the first page whose
      text satisfies `holds`, 0 when none does, or KeyError on reaching a missing page number. */
  function PageSearch(holds: string -> bool, pages: Dict<int, string>, p: int, n: int): Result<nat>
    requires 0 <= p
    decreases n - p
  {
    if p >= n then Ok(0)
    else match Get(pages, p + 1)
      case None => Err("KeyError")
      case Some(text) => if holds(text) then Ok(p + 1) else PageSearch(holds, pages, p + 1, n)
  }

  /** The page test of `find_in_pages` for one title. */
  function OnPage(title: string): string -> bool { (t: string) => TitleOnPage(title, t) }

  /** `find_in_pages`: the pages 1..min(len(pages), max_pages) are searched in order. */
  method FindInPages(title: string, pages: Dict<int, string>, maxPages: int) returns (r: Result<nat>)
    ensures r == PageSearch(OnPage(title), pages, 0, Min(|pages|, maxPages))
  {
    var holds := OnPage(title);
    var titleTokens := SubstituteNonAlphanumeric(title);
    var n := Min(|pages|, maxPages);
    var p := 0;
    while p < n
      invariant 0 <= p && (n >= 0 ==> p <= n)
      invariant PageSearch(holds, pages, 0, n) == PageSearch(holds, pages, p, n)
    {
      var page := Get(pages, p + 1);
      if page.None? {
        return Err("KeyError");
      }
      var pageTokens := SubstituteNonAlphanumeric(page.value);
      if Contains(" " + pageTokens + " ", " " + titleTokens + " ") {
        return Ok(p + 1);
      }
      p := p + 1;
    }
    return Ok(0);
  }

  /** A page number found lies in the searched range and its page satisfies the test. */
  lemma {:induction false} PageSearchFound(holds: string -> bool, pages: Dict<int, string>, p: int, n: int)
    requires 0 <= p
    ensures PageSearch(holds, pages, p, n).Ok? && PageSearch(holds, pages, p, n).value > 0 ==>
              var q := PageSearch(holds, pages, p, n).value;
              p < q <= n && Get(pages, q).Some? && holds(Get(pages, q).value)
    decreases n - p
  {
    if p < n && Get(pages, p + 1).Some? && !holds(Get(pages, p + 1).value) {
      PageSearchFound(holds, pages, p + 1, n);
    }
  }

  /** Every page before the one found (every page in range, when 0 is returned) is present and
      fails the test. */
  lemma {:induction false} PageSearchSkipped(holds: string -> bool, pages: Dict<int, string>, p: int, n: int, q: int)
    requires 0 <= p < q <= n
    requires PageSearch(holds, pages, p, n).Ok?
    requires PageSearch(holds, pages, p, n).value == 0 || q < PageSearch(holds, pages, p, n).value
    ensures Get(pages, q).Some? && !holds(Get(pages, q).value)
    decreases n - p
  {
    if q > p + 1 {
      PageSearchSkipped(holds, pages, p + 1, n, q);
    }
  }

  /** KeyError is raised only when some page number in the searched range is missing, and is
      raised whenever the title is not found before such a page. */
  lemma {:induction false} PageSearchKeyError(holds: string -> bool, pages: Dict<int, string>, p: int, n: int)
    requires 0 <= p
    ensures PageSearch(holds, pages, p, n).Err? ==> exists q :: p < q <= n && Get(pages, q).None?
    ensures (forall q :: p < q <= n ==> Get(pages, q).Some?) ==> PageSearch(holds, pages, p, n).Ok?
    decreases n - p
  {
    if p < n && Get(pages, p + 1).Some? && !holds(Get(pages, p + 1).value) {
      PageSearchKeyError(holds, pages, p + 1, n);
    }
  }

  /** A run of tokens bounded by spaces, or by the ends, is found wrapped in spaces. */
  lemma TokenRunOccurs(before: string, x: string, after: string)
    requires before == "" || before[|before| - 1] == ' '
    requires after == "" || after[0] == ' '
    ensures Contains(" " + (before + x + after) + " ", " " + x + " ")
  {
    var t := " " + x + " ";
    var s := " " + (before + x + after) + " ";
    var b := " " + before;
    var a := after + " ";
    assert s == b + x + a;
    assert b == b[..|b| - 1] + " ";
    assert a == " " + a[1..];
    assert s == b[..|b| - 1] + t + a[1..];
    assert OccursAt(s, t, |b| - 1);
    ContainsAt(s, t);
  }

  /** The search is whole-token: a title whose normalised tokens form a run of the page's
      normalised tokens is found. */
  lemma TitleOnPageByTokens(title: string, page: string, before: string, after: string)
    requires SubstituteNonAlphanumeric(page) == before + SubstituteNonAlphanumeric(title) + after
    requires before == "" || before[|before| - 1] == ' '
    requires after == "" || after[0] == ' '
    ensures TitleOnPage(title, page)
  {
    TokenRunOccurs(before, SubstituteNonAlphanumeric(title), after);
  }

  /** `x` stands at position `i` of `p` as a run of whole tokens: bounded by spaces or the ends. */
  predicate TokenRunAt(p: string, x: string, i: int)
  {
    0 <= i && i + |x| <= |p| && p[i..i + |x|] == x
    && (i == 0 || p[i - 1] == ' ') && (i + |x| == |p| || p[i + |x|] == ' ')
  }

  /** The characters of a space-wrapped text, one past their own positions. */
  lemma Wrapped(p: string)
    ensures |" " + p + " "| == |p| + 2
    ensures (" " + p + " ")[0] == ' ' && (" " + p + " ")[|p| + 1] == ' '
    ensures forall k :: 0 <= k < |p| ==> (" " + p + " ")[k + 1] == p[k]
  {
  }

  lemma WrappedOccurrence(p: string, x: string, i: int)
    requires OccursAt(" " + p + " ", " " + x + " ", i)
    ensures TokenRunAt(p, x, i)
  {
    Wrapped(p);
    Wrapped(x);
    var s := " " + p + " ";
    var t := " " + x + " ";
    assert forall k :: 0 <= k < |t| ==> s[i + k] == t[k] by {
      forall k | 0 <= k < |t| ensures s[i + k] == t[k] {
        assert s[i..i + |t|][k] == t[k];
      }
    }
    assert forall k :: 0 <= k < |x| ==> p[i + k] == s[i + 1 + k] == t[k + 1] == x[k];
    assert p[i..i + |x|] == x;
  }

  lemma TokenRunOccurrence(p: string, x: string, i: int)
    requires TokenRunAt(p, x, i)
    ensures OccursAt(" " + p + " ", " " + x + " ", i)
  {
    Wrapped(p);
    Wrapped(x);
    var s := " " + p + " ";
    var t := " " + x + " ";
    assert forall k :: 0 <= k < |x| ==> p[i + k] == x[k] by {
      forall k | 0 <= k < |x| ensures p[i + k] == x[k] {
        assert p[i..i + |x|][k] == x[k];
      }
    }
    assert forall k :: 0 <= k < |t| ==> s[i + k] == t[k];
    assert s[i..i + |t|] == t;
  }

  /** Wrapping both texts in spaces turns a substring test into a test for a run of whole
      tokens. */
  lemma TokenRunWrapped(p: string, x: string)
    ensures Contains(" " + p + " ", " " + x + " ") <==> exists i :: TokenRunAt(p, x, i)
  {
    ContainsAt(" " + p + " ", " " + x + " ");
    if Contains(" " + p + " ", " " + x + " ") {
      var i :| OccursAt(" " + p + " ", " " + x + " ", i);
      WrappedOccurrence(p, x, i);
    }
    if exists i :: TokenRunAt(p, x, i) {
      var i :| TokenRunAt(p, x, i);
      TokenRunOccurrence(p, x, i);
    }
  }

  /** `find_in_pages` tests for whole tokens: a title is found on a page exactly when its
      normalised text stands in the page's normalised text bounded by spaces or the ends, so
      'pdfinfo' is not found in 'pdfinformation' and a word inserted inside the run breaks the
      match. */
  lemma TitleOnPageTokens(title: string, page: string)
    ensures TitleOnPage(title, page)
            <==> exists i :: TokenRunAt(SubstituteNonAlphanumeric(page), SubstituteNonAlphanumeric(title), i)
  {
    TokenRunWrapped(SubstituteNonAlphanumeric(page), SubstituteNonAlphanumeric(title));
  }

  // ---------------------------------------------------------------- ISSN and ISBN

  datatype Identifier = ISBN | ISSN

  /** The identifier's name, which is also its field in the candidate table. */
  function IdentifierName(id: Identifier): string
  {
    match id
    case ISBN => "ISBN"
    case ISSN => "ISSN"
  }

  predicate IsDash(c: char) { c == '-' || c == '\U{2013}' }

  /** `\D(\d{4}[–-][\dX]{4})\D` matches at position `i`. */
  predicate IssnAt(s: string, i: nat)
  {
    i + 11 <= |s| && !IsDigit(s[i])
    && IsDigit(s[i + 1]) && IsDigit(s[i + 2]) && IsDigit(s[i + 3]) && IsDigit(s[i + 4])
    && IsDash(s[i + 5])
    && (forall k :: i + 6 <= k < i + 10 ==> IsDigit(s[k]) || s[k] == 'X')
    && !IsDigit(s[i + 10])
  }

  /** Four digits, a dash, four digits or X. */
  predicate IssnForm(v: string)
  {
    |v| == 9 && IsDigit(v[0]) && IsDigit(v[1]) && IsDigit(v[2]) && IsDigit(v[3]) && IsDash(v[4])
    && forall k :: 5 <= k < 9 ==> IsDigit(v[k]) || v[k] == 'X'
  }

  /** `pattern.search(s)` from position `i`: the group of the leftmost match. */
  function IssnSearch(s: string, i: nat): (r: Option<string>)
    ensures r.Some? ==> IssnForm(r.value)
    ensures r.Some? ==> exists j :: i <= j && IssnAt(s, j) && r.value == s[j + 1..j + 10]
                                    && forall j' :: i <= j' < j ==> !IssnAt(s, j')
    ensures r.None? ==> forall j :: i <= j ==> !IssnAt(s, j)
    decreases |s| - i
  {
    if i + 11 > |s| then None
    else if IssnAt(s, i) then Some(s[i + 1..i + 10])
    else IssnSearch(s, i + 1)
  }

  predicate IsbnChar(c: char) { IsDigit(c) || IsDash(c) }

  /** The number of consecutive characters of `[\d–-]` from position `i`, at most `cap`. */
  function IsbnRun(s: string, i: nat, cap: nat): (n: nat)
    ensures n <= cap && (i + n <= |s| || (n == 0 && i >= |s|))
    ensures forall k :: i <= k < i + n ==> IsbnChar(s[k])
    decreases cap
  {
    if cap == 0 || i >= |s| || !IsbnChar(s[i]) then 0 else 1 + IsbnRun(s, i + 1, cap - 1)
  }

  /** Greedy `{13,17}` with backtracking: the longest length `k <= n` from 13 up that is followed
      by a non-digit. */
  function IsbnFit(s: string, i: nat, n: nat): (r: Option<nat>)
    ensures r.Some? ==> 13 <= r.value <= n && i + 1 + r.value < |s| && !IsDigit(s[i + 1 + r.value])
    decreases n
  {
    if n < 13 then None
    else if i + 1 + n < |s| && !IsDigit(s[i + 1 + n]) then Some(n)
    else IsbnFit(s, i, n - 1)
  }

  /** The leftmost position `j` from `i` where `\D([\d–-]{13,17})\D` matches, with the length
      `k` of its capture. */
  function IsbnFind(s: string, i: nat): (r: Option<(nat, nat)>)
    ensures r.Some? ==> i <= r.value.0 && 13 <= r.value.1 <= 17 && r.value.0 + 1 + r.value.1 < |s|
    ensures r.Some? ==> forall m :: r.value.0 + 1 <= m < r.value.0 + 1 + r.value.1 ==> IsbnChar(s[m])
    decreases |s| - i
  {
    if i >= |s| then None
    else if !IsDigit(s[i]) && IsbnFit(s, i, IsbnRun(s, i + 1, 17)).Some? then
      Some((i, IsbnFit(s, i, IsbnRun(s, i + 1, 17)).value))
    else IsbnFind(s, i + 1)
  }

  /** `\D([\d–-]{13,17})\D` searched from position `i`: the group of the match found. */
  function IsbnSearch(s: string, i: nat): (r: Option<string>)
    ensures r.Some? ==> 13 <= |r.value| <= 17 && forall k :: 0 <= k < |r.value| ==> IsbnChar(r.value[k])
  {
    if IsbnFind(s, i).None? then None
    else
      var (j, k) := IsbnFind(s, i).value;
      var v := s[j + 1..j + 1 + k];
      assert forall x :: 0 <= x < |v| ==> v[x] == s[j + 1 + x] && IsbnChar(s[j + 1 + x]);
      Some(v)
  }

  /** `\D([\d–-]{13,17})\D` matches at position `j` with a capture of `k` characters. */
  predicate IsbnAt(s: string, j: nat, k: nat)
  {
    13 <= k <= 17 && j + 1 + k < |s| && !IsDigit(s[j])
    && (forall m :: j + 1 <= m < j + 1 + k ==> IsbnChar(s[m]))
    && !IsDigit(s[j + 1 + k])
  }

  /** A run of `k` identifier characters within the cap is counted in full. */
  lemma {:induction false} IsbnRunCovers(s: string, p: nat, cap: nat, k: nat)
    requires k <= cap && p + k <= |s| && forall m :: p <= m < p + k ==> IsbnChar(s[m])
    ensures k <= IsbnRun(s, p, cap)
    decreases cap
  {
    if k > 0 {
      IsbnRunCovers(s, p + 1, cap - 1, k - 1);
    }
  }

  /** Every length that fits is at most the length `IsbnFit` picks. */
  lemma {:induction false} IsbnFitBest(s: string, i: nat, n: nat, k: nat)
    requires 13 <= k <= n && i + 1 + k < |s| && !IsDigit(s[i + 1 + k])
    ensures IsbnFit(s, i, n).Some? && k <= IsbnFit(s, i, n).value
    decreases n
  {
    if !(i + 1 + n < |s| && !IsDigit(s[i + 1 + n])) {
      IsbnFitBest(s, i, n - 1, k);
    }
  }

  /** A match at `j` is seen by the search step at `j`, and is no longer than its capture. */
  lemma IsbnAtFit(s: string, j: nat, k: nat)
    ensures IsbnAt(s, j, k) ==>
              !IsDigit(s[j]) && IsbnFit(s, j, IsbnRun(s, j + 1, 17)).Some?
              && k <= IsbnFit(s, j, IsbnRun(s, j + 1, 17)).value
  {
    if IsbnAt(s, j, k) {
      IsbnRunCovers(s, j + 1, 17, k);
      IsbnFitBest(s, j, IsbnRun(s, j + 1, 17), k);
    }
  }

  /** The match `re.search` reports from `i`: at the leftmost matching position `j`, with the
      longest capture `k` there. */
  ghost predicate IsbnLeftmost(s: string, i: nat, j: nat, k: nat)
  {
    && i <= j && IsbnAt(s, j, k)
    && (forall j': nat, k': nat :: i <= j' < j ==> !IsbnAt(s, j', k'))
    && (forall k': nat :: IsbnAt(s, j, k') ==> k' <= k)
  }

  /** The search step at `i` finds the longest match there. */
  lemma IsbnSearchHere(s: string, i: nat)
    requires i < |s| && !IsDigit(s[i]) && IsbnFit(s, i, IsbnRun(s, i + 1, 17)).Some?
    ensures IsbnLeftmost(s, i, i, IsbnFit(s, i, IsbnRun(s, i + 1, 17)).value)
  {
    forall k': nat | IsbnAt(s, i, k') ensures k' <= IsbnFit(s, i, IsbnRun(s, i + 1, 17)).value {
      IsbnAtFit(s, i, k');
    }
  }

  /** Where the search step at `i` fails, nothing matches at `i`. */
  lemma IsbnNoneHere(s: string, i: nat)
    requires i < |s| && !(!IsDigit(s[i]) && IsbnFit(s, i, IsbnRun(s, i + 1, 17)).Some?)
    ensures forall k: nat :: !IsbnAt(s, i, k)
  {
    forall k: nat ensures !IsbnAt(s, i, k) {
      IsbnAtFit(s, i, k);
    }
  }

  /** A leftmost match from `i + 1` is the leftmost from `i` when nothing matches at `i`. */
  lemma IsbnLeftmostStep(s: string, i: nat, j: nat, k: nat)
    requires IsbnLeftmost(s, i + 1, j, k) && forall k': nat :: !IsbnAt(s, i, k')
    ensures IsbnLeftmost(s, i, j, k)
  {
  }

  /** `IsbnSearch` is `re.search`: none when no position matches, else the capture at the
      leftmost matching position, as long as the greedy `{13,17}` can make it. */
  lemma IsbnSearchSpec(s: string, i: nat)
    ensures IsbnSearch(s, i).None? ==> forall j: nat, k: nat :: i <= j ==> !IsbnAt(s, j, k)
    ensures IsbnSearch(s, i).Some? ==>
              exists j: nat, k: nat :: IsbnLeftmost(s, i, j, k) && IsbnSearch(s, i).value == s[j + 1..j + 1 + k]
  {
    if IsbnFind(s, i).None? {
      IsbnFindNone(s, i);
    } else {
      var j, k := IsbnFind(s, i).value.0, IsbnFind(s, i).value.1;
      IsbnFindSome(s, i);
      IsbnSearchValue(s, i);
    }
  }

  lemma IsbnSearchValue(s: string, i: nat)
    requires IsbnFind(s, i).Some?
    ensures IsbnSearch(s, i) == Some(s[IsbnFind(s, i).value.0 + 1..IsbnFind(s, i).value.0 + 1 + IsbnFind(s, i).value.1])
  {
  }

  /** No match from `i` on when the search finds none. */
  lemma {:induction false} IsbnFindNone(s: string, i: nat)
    requires IsbnFind(s, i).None?
    ensures forall j: nat, k: nat :: i <= j ==> !IsbnAt(s, j, k)
    decreases |s| - i
  {
    if i < |s| {
      IsbnNoneHere(s, i);
      IsbnFindNone(s, i + 1);
    }
  }

  /** The position found is the leftmost match from `i`, and its length the longest there. */
  lemma {:induction false} IsbnFindSome(s: string, i: nat)
    requires IsbnFind(s, i).Some?
    ensures IsbnLeftmost(s, i, IsbnFind(s, i).value.0, IsbnFind(s, i).value.1)
    decreases |s| - i
  {
    if !IsDigit(s[i]) && IsbnFit(s, i, IsbnRun(s, i + 1, 17)).Some? {
      IsbnSearchHere(s, i);
    } else {
      IsbnNoneHere(s, i);
      IsbnFindSome(s, i + 1);
      IsbnLeftmostStep(s, i, IsbnFind(s, i).value.0, IsbnFind(s, i).value.1);
    }
  }

  /** The identifier captured in `"." + text + "."`, before dash normalisation. */
  function IsxnCapture(id: Identifier, text: string): Option<string>
  {
    var s := "." + text + ".";
    match id
    case ISSN => IssnSearch(s, 0)
    case ISBN => IsbnSearch(s, 0)
  }

  /** The value and context that `find_isxn` returns: the capture with every '–' made '-', and
      the whole text lower-cased. */
  function IsxnOf(id: Identifier, text: string): (r: Option<(string, string)>)
    ensures r.Some? <==> IsxnCapture(id, text).Some?
    ensures r.Some? ==> r.value.1 == Lower(text)
    ensures r.Some? ==> r.value.0 == ReplaceChar(IsxnCapture(id, text).value, '\U{2013}', '-')
    ensures r.Some? ==> forall k :: 0 <= k < |r.value.0| ==> r.value.0[k] != '\U{2013}'
  {
    match IsxnCapture(id, text)
    case None => None
    case Some(v) => Some((ReplaceChar(v, '\U{2013}', '-'), Lower(text)))
  }

  /** A found ISSN has the shape dddd-dddd with X allowed in the last four places, and sat
      between non-digits. */
  lemma IssnShape(text: string)
    requires IsxnOf(ISSN, text).Some?
    ensures var v := IsxnOf(ISSN, text).value.0;
      |v| == 9 && v[4] == '-'
      && (forall k :: 0 <= k < 4 ==> IsDigit(v[k]))
      && (forall k :: 5 <= k < 9 ==> IsDigit(v[k]) || v[k] == 'X')
  {
    var c := IsxnCapture(ISSN, text).value;
    assert IssnForm(c);
  }

  /** A found ISBN is 13 to 17 digits and dashes. */
  lemma IsbnShape(text: string)
    requires IsxnOf(ISBN, text).Some?
    ensures var v := IsxnOf(ISBN, text).value.0;
      13 <= |v| <= 17 && forall k :: 0 <= k < |v| ==> IsDigit(v[k]) || v[k] == '-'
  {
  }

  /** `find_isxn`: a fresh value with its context, or null when the pattern does not match. */
  method FindIsxn(id: Identifier, text: string) returns (r: ValueAndContext?)
    ensures r == null <==> IsxnOf(id, text).None?
    ensures r != null ==> fresh(r) && r.value == IsxnOf(id, text).value.0
                          && r.context == Some(IsxnOf(id, text).value.1)
  {
    var m := IsxnOf(id, text);
    if m.None? {
      return null;
    }
    r := new ValueAndContext(m.value.0, Some(m.value.1));
  }

  // ---------------------------------------------------------------- report prefix

  /** The longest prefix of word characters. */
  function LeadingWord(s: string): (w: string)
    ensures IsPrefix(w, s)
    ensures forall k :: 0 <= k < |w| ==> IsWordChar(w[k])
    ensures |w| < |s| ==> !IsWordChar(s[|w|])
  {
    if |s| > 0 && IsWordChar(s[0]) then [s[0]] + LeadingWord(s[1..]) else ""
  }

  /** `(labels)\W` matches at position `j` for some length of the label. */
  predicate ReportLabelAt(pats: Patterns, s: string, j: nat)
  {
    exists k :: j <= k < |s| && pats.reportLabel(s[j..k]) && !IsWordChar(s[k])
  }

  /** `find_report_prefix`: `^(\w+)\W(labels)\W` on `text + "."`; the word is kept only when it
      is upper case. */
  function FindReportPrefix(pats: Patterns, text: string): (r: Option<string>)
    ensures r.Some? ==> IsUpper(r.value) && |r.value| > 0 && IsPrefix(r.value, text)
    ensures r.Some? ==> forall k :: 0 <= k < |r.value| ==> IsWordChar(r.value[k])
  {
    var s := text + ".";
    var w := LeadingWord(s);
    if |w| > 0 && |w| < |s| && ReportLabelAt(pats, s, |w| + 1) && IsUpper(w) then
      assert |w| <= |text| by { assert !IsWordChar(s[|s| - 1]); }
      assert w == text[..|w|];
      Some(w)
    else None
  }

  /** The leading word of `w + [sep] + rest` is `w` when `w` is all word characters and `sep` is not one. */
  lemma {:induction false} LeadingWordOf(w: string, sep: char, rest: string)
    requires forall k :: 0 <= k < |w| ==> IsWordChar(w[k])
    requires !IsWordChar(sep)
    ensures LeadingWord(w + [sep] + rest) == w
  {
    if |w| > 0 {
      assert (w + [sep] + rest)[1..] == w[1..] + [sep] + rest;
      LeadingWordOf(w[1..], sep, rest);
    }
  }

  /** An upper-case first word, a separator and then a report label yield the word. */
  lemma ReportPrefixFound(pats: Patterns, w: string, sep: char, lbl: string, tail: string)
    requires |w| > 0 && IsUpper(w) && forall k :: 0 <= k < |w| ==> IsWordChar(w[k])
    requires !IsWordChar(sep) && pats.reportLabel(lbl)
    requires tail == "" || !IsWordChar(tail[0])
    ensures FindReportPrefix(pats, w + [sep] + lbl + tail) == Some(w)
  {
    var a, c := w + [sep], tail + ".";
    var s := a + lbl + tail + ".";
    AppendAssoc(a + lbl, tail, ".");
    AppendAssoc(a, lbl, c);
    LeadingWordOf(w, sep, lbl + c);
    MiddleOf(a, lbl, c);
    if tail == "" {
      assert c[0] == '.';
    } else {
      assert c[0] == tail[0];
    }
    var j, k := |a|, |a| + |lbl|;
    assert pats.reportLabel(s[j..k]) && !IsWordChar(s[k]);
  }

  /** The middle part of a concatenation, and the character after it. */
  lemma MiddleOf(a: string, b: string, c: string)
    requires |c| > 0
    ensures (a + b + c)[|a|..|a| + |b|] == b && (a + b + c)[|a| + |b|] == c[0]
  {
    assert (a + b + c)[|a|..|a| + |b|] == b;
  }

  /** A text of one word has no report prefix: the label must follow a separator. */
  lemma ReportPrefixSingleWord(pats: Patterns, text: string)
    requires forall k :: 0 <= k < |text| ==> IsWordChar(text[k])
    ensures FindReportPrefix(pats, text) == None
  {
    LeadingWordOf(text, '.', "");
  }

  /** The cases of test/test_text.py, for any label table that knows 'report' and 'RAPPORT'. */
  lemma ReportPrefixHyphen(pats: Patterns)
    requires pats.reportLabel("report")
    ensures FindReportPrefix(pats, "NAV-report") == Some("NAV")
  {
    assert "NAV-report" == "NAV" + ['-'] + "report" + "";
    ReportPrefixFound(pats, "NAV", '-', "report", "");
  }

  /** "NIBIO RAPPORT  |  VOL. 3  |  NR. 45", written in its three parts. */
  lemma ReportPrefixSpaced(pats: Patterns, text: string)
    requires pats.reportLabel("RAPPORT")
    requires text == "NIBIO" + " RAPPORT" + "  |  VOL. 3  |  NR. 45"
    ensures FindReportPrefix(pats, text) == Some("NIBIO")
  {
    var w, tail := "NIBIO", "  |  VOL. 3  |  NR. 45";
    assert text == w + [' '] + "RAPPORT" + tail;
    AsciiCapitals(w);
    ReportPrefixFound(pats, w, ' ', "RAPPORT", tail);
  }

  lemma ReportPrefixAbsent(pats: Patterns)
    ensures FindReportPrefix(pats, "FHI") == None
    ensures FindReportPrefix(pats, "\U{00C5}RSRAPPORT") == None
    ensures FindReportPrefix(pats, "This FHI report") == None
  {
    ReportPrefixSingleWord(pats, "FHI");
    ReportPrefixSingleWord(pats, "\U{00C5}RSRAPPORT");
    assert "This FHI report" + "." == "This" + [' '] + "FHI report.";
    LeadingWordOf("This", ' ', "FHI report.");
  }

  // ---------------------------------------------------------------- document type

  /** `\bNOU\b` occurs. */
  predicate HasWordNou(s: string)
  {
    exists i :: 0 <= i < |s| && OccursAt(s, "NOU", i)
      && (i == 0 || !IsWordChar(s[i - 1])) && (i + 3 == |s| || !IsWordChar(s[i + 3]))
  }

  /** `find_doc_type`: the matched report type through the mapping, else lower-cased; failing
      that "nou" for the word NOU; else nothing. */
  function FindDocType(pats: Patterns, mapping: map<string, string>, pageText: string): (r: Option<string>)
    ensures pats.reportTypeSearch(pageText).Some? ==>
              var t := Lower(pats.reportTypeSearch(pageText).value);
              r == Some(if t in mapping then mapping[t] else t)
    ensures pats.reportTypeSearch(pageText).None? ==> (r.Some? <==> HasWordNou(pageText))
    ensures r.Some? && pats.reportTypeSearch(pageText).None? ==> r.value == "nou"
  {
    match pats.reportTypeSearch(pageText)
    case Some(g) =>
      var t := Lower(g);
      if t in mapping then Some(mapping[t]) else Some(t)
    case None =>
      if HasWordNou(pageText) then Some("nou") else None
  }

  // ---------------------------------------------------------------- letters and scores

  predicate NoLetterChars(s: string)
  {
    |s| == 0 || ((!IsWordChar(s[0]) || IsDigit(s[0])) && NoLetterChars(s[1..]))
  }

  /** `has_no_letters`: the whole text matches `[\W\d]+`. */
  function HasNoLetters(s: string): (r: bool)
    ensures r <==> |s| > 0 && forall i :: 0 <= i < |s| ==> !IsWordChar(s[i]) || IsDigit(s[i])
  {
    NoLetterCharsAt(s);
    |s| > 0 && NoLetterChars(s)
  }

  lemma {:induction false} NoLetterCharsAt(s: string)
    ensures NoLetterChars(s) <==> forall i :: 0 <= i < |s| ==> !IsWordChar(s[i]) || IsDigit(s[i])
  {
    if |s| > 0 {
      NoLetterCharsAt(s[1..]);
      assert forall i :: 0 < i < |s| ==> s[i] == s[1..][i - 1];
    }
  }

  /** The cases of test/test_text.py. */
  lemma NoLettersExamples()
    ensures HasNoLetters("2020/02")
    ensures !HasNoLetters("2020/02 Report from")
  {
    assert IsWordChar("2020/02 Report from"[8]) && !IsDigit("2020/02 Report from"[8]);
  }

  /** `score_isxn_context`: e-markers count up, p-markers count down; no context scores 0. */
  function ScoreIsxnContext(pats: Patterns, context: Option<string>): int
  {
    if context.None? || context.value == "" then 0
    else pats.eIsxnMatches(context.value) - pats.pIsxnMatches(context.value)
  }
}
