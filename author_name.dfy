// Locating and parsing authors' names (metadata_extract/author_name.py): parenthesis removal,
// the name-pattern pipeline of `get_author_names`, the first/last name split and the tests the
// finder applies to a name before it becomes a candidate.

module AuthorNames {
  import opened Common
  import opened Strings
  import opened Lists
  import opened Unique
  import opened Candidates
  import opened Text
  import opened Pages

  // ---------------------------------------------------------------- parentheses

  predicate FreeOf(s: string, c: char) { forall k :: 0 <= k < |s| ==> s[k] != c }

  /** The position of the first ')' in `t`, provided no line break comes before it: the lazy
      `.*?\)` of the parenthesis pattern, whose `.` does not match a line break. */
  function CloseAt(t: string): (r: Option<nat>)
    ensures r.Some? ==> r.value < |t| && t[r.value] == ')'
    ensures r.Some? ==> forall k :: 0 <= k < r.value ==> t[k] != ')' && t[k] != '\n'
    ensures r.None? ==> forall k :: 0 <= k < |t| && t[k] == ')' ==> exists j :: 0 <= j < k && t[j] == '\n'
  {
    if |t| == 0 || t[0] == '\n' then None
    else if t[0] == ')' then Some(0)
    else match CloseAt(t[1..])
      case None => None
      case Some(k) => Some(k + 1)
  }

  /** `findall` of `\(.*?\)`: scanning from the left, a '(' closed on its own line starts a
      match, and the scan resumes after the match. */
  function ParenMatches(s: string): (r: seq<string>)
    ensures forall i :: 0 <= i < |r| ==> |r[i]| >= 2 && r[i][0] == '(' && r[i][|r[i]| - 1] == ')'
    decreases |s|
  {
    if |s| == 0 then []
    else if s[0] == '(' && CloseAt(s[1..]).Some? then
      var k := CloseAt(s[1..]).value;
      [s[..k + 2]] + ParenMatches(s[k + 2..])
    else ParenMatches(s[1..])
  }

  /** Each match deleted in turn with `str.replace(match, "")`. */
  function DeleteAll(s: string, ms: seq<string>): string
    decreases |ms|
  {
    if |ms| == 0 then s else DeleteAll(Replace(s, ms[0], ""), ms[1..])
  }

  /** What `remove_parenthesis` returns. */
  function WithoutParenthesis(s: string): string
  {
    DeleteAll(s, ParenMatches(s))
  }

  /** `remove_parenthesis`: every match of the parenthesis pattern is replaced by nothing. */
  method RemoveParenthesis(authorText: string) returns (r: string)
    ensures r == WithoutParenthesis(authorText)
  {
    var matches := ParenMatches(authorText);
    r := authorText;
    var i := 0;
    while i < |matches|
      invariant 0 <= i <= |matches|
      invariant DeleteAll(r, matches[i..]) == WithoutParenthesis(authorText)
    {
      assert matches[i..][1..] == matches[i + 1..];
      r := Replace(r, matches[i], "");
      i := i + 1;
    }
  }

  // A text cut into plain stretches and parenthesised remarks, to state what the deletion does.

  datatype Piece = Plain(text: string) | Paren(inner: string)

  function Wrap(x: string): string { "(" + x + ")" }

  function PieceText(p: Piece): string
  {
    match p
    case Plain(t) => t
    case Paren(x) => Wrap(x)
  }

  function Render(ps: seq<Piece>): string
  {
    if |ps| == 0 then "" else PieceText(ps[0]) + Render(ps[1..])
  }

  /** The text of the plain stretches only. */
  function PlainText(ps: seq<Piece>): string
  {
    if |ps| == 0 then "" else (if ps[0].Plain? then ps[0].text else "") + PlainText(ps[1..])
  }

  /** The remarks, parentheses included. */
  function ParenTexts(ps: seq<Piece>): seq<string>
  {
    if |ps| == 0 then [] else (if ps[0].Paren? then [Wrap(ps[0].inner)] else []) + ParenTexts(ps[1..])
  }

  /** A remark holds no parenthesis and no line break. */
  predicate InnerOk(x: string) { FreeOf(x, '(') && FreeOf(x, ')') && FreeOf(x, '\n') }

  /** Plain stretches hold no '(' and remarks are well formed. */
  predicate WellCut(ps: seq<Piece>)
  {
    forall i :: 0 <= i < |ps| ==> if ps[i].Plain? then FreeOf(ps[i].text, '(') else InnerOk(ps[i].inner)
  }

  lemma WellCutTail(ps: seq<Piece>)
    requires |ps| > 0 && WellCut(ps)
    ensures WellCut(ps[1..])
  {
  }

  lemma {:induction false} ParenMatchesSkip(a: string, rest: string)
    requires FreeOf(a, '(')
    ensures ParenMatches(a + rest) == ParenMatches(rest)
    decreases |a|
  {
    if |a| > 0 {
      assert (a + rest)[0] == a[0];
      assert (a + rest)[1..] == a[1..] + rest;
      ParenMatchesSkip(a[1..], rest);
    } else {
      assert a + rest == rest;
    }
  }

  lemma {:induction false} CloseAtRemark(x: string, rest: string)
    requires FreeOf(x, ')') && FreeOf(x, '\n')
    ensures CloseAt(x + ")" + rest) == Some(|x|)
    decreases |x|
  {
    var t := x + ")" + rest;
    if |x| > 0 {
      assert t[0] == x[0];
      assert t[1..] == x[1..] + ")" + rest;
      CloseAtRemark(x[1..], rest);
    } else {
      assert t[0] == ')';
    }
  }

  /** The pattern finds exactly the remarks, in order. */
  lemma {:induction false} ParenMatchesRender(ps: seq<Piece>)
    requires WellCut(ps)
    ensures ParenMatches(Render(ps)) == ParenTexts(ps)
  {
    if |ps| > 0 {
      WellCutTail(ps);
      ParenMatchesRender(ps[1..]);
      var rest := Render(ps[1..]);
      match ps[0]
      case Plain(t) =>
        ParenMatchesSkip(t, rest);
      case Paren(x) =>
        var s := Wrap(x) + rest;
        assert s[0] == '(';
        assert s[1..] == x + ")" + rest;
        CloseAtRemark(x, rest);
        assert s[..|x| + 2] == Wrap(x);
        assert s[|x| + 2..] == rest;
    }
  }

  /** `str.replace` moves past a character that does not start the target. */
  lemma ReplaceHead(s: string, target: string, repl: string)
    requires |target| > 0 && |s| > 0 && !IsPrefix(target, s)
    ensures Replace(s, target, repl) == [s[0]] + Replace(s[1..], target, repl)
  {
  }

  /** `str.replace` replaces an occurrence at the front and goes on after it. */
  lemma ReplaceFront(s: string, target: string, repl: string)
    requires |target| > 0 && IsPrefix(target, s)
    ensures Replace(s, target, repl) == repl + Replace(s[|target|..], target, repl)
  {
  }

  /** A string whose first character differs from the target's does not start with it. */
  lemma HeadNotPrefix(target: string, s: string)
    requires |target| > 0 && |s| > 0 && s[0] != target[0]
    ensures !IsPrefix(target, s)
  {
    if |target| <= |s| { assert s[..|target|][0] != target[0]; }
  }

  lemma {:induction false} ReplaceSkip(a: string, rest: string, target: string, repl: string)
    requires |target| > 0 && FreeOf(a, target[0])
    ensures Replace(a + rest, target, repl) == a + Replace(rest, target, repl)
    decreases |a|
  {
    if |a| > 0 {
      var s := a + rest;
      var t := a[1..];
      assert s[0] == a[0] && s[1..] == t + rest;
      HeadNotPrefix(target, s);
      ReplaceHead(s, target, repl);
      ReplaceSkip(t, rest, target, repl);
      AppendAssoc([a[0]], t, Replace(rest, target, repl));
      assert a == [a[0]] + t;
    } else {
      assert a + rest == rest;
    }
  }

  /** Two different remarks: neither starts with the other. */
  lemma RemarkNotPrefix(x: string, y: string, rest: string)
    requires InnerOk(x) && InnerOk(y) && x != y
    ensures !IsPrefix(Wrap(x), Wrap(y) + rest)
  {
    var t := Wrap(x);
    var s := Wrap(y) + rest;
    if |t| <= |s| {
      if |x| < |y| {
        assert s[..|t|][|x| + 1] == y[|x|] != t[|x| + 1];
      } else if |x| > |y| {
        assert s[..|t|][|y| + 1] == ')' != x[|y|] == t[|y| + 1];
      } else {
        var k :| 0 <= k < |x| && x[k] != y[k];
        assert s[..|t|][k + 1] == y[k] != x[k] == t[k + 1];
      }
    }
  }

  /** A remark other than the one deleted is kept whole. */
  lemma ReplaceOtherRemark(x: string, y: string, rest: string)
    requires InnerOk(x) && InnerOk(y) && x != y
    ensures Replace(Wrap(y) + rest, Wrap(x), "") == Wrap(y) + Replace(rest, Wrap(x), "")
  {
    var s := Wrap(y) + rest;
    RemarkNotPrefix(x, y, rest);
    ReplaceHead(s, Wrap(x), "");
    var t := y + ")";
    AppendAssoc("(", y, ")");
    assert s[0] == '(' && s[1..] == t + rest;
    ReplaceSkip(t, rest, Wrap(x), "");
    AppendAssoc("(", t, Replace(rest, Wrap(x), ""));
  }

  /** The remarks other than `Paren(x)`. */
  function DropRemark(ps: seq<Piece>, x: string): (r: seq<Piece>)
    ensures forall i :: 0 <= i < |r| ==> r[i] in ps && r[i] != Paren(x)
  {
    if |ps| == 0 then []
    else (if ps[0] == Paren(x) then [] else [ps[0]]) + DropRemark(ps[1..], x)
  }

  /** Deleting one remark with `str.replace` deletes every copy of it, and nothing else. */
  lemma {:induction false} ReplaceRender(ps: seq<Piece>, x: string)
    requires WellCut(ps) && InnerOk(x)
    ensures Replace(Render(ps), Wrap(x), "") == Render(DropRemark(ps, x))
  {
    if |ps| > 0 {
      WellCutTail(ps);
      ReplaceRender(ps[1..], x);
      var rest := Render(ps[1..]);
      match ps[0]
      case Plain(t) =>
        ReplaceSkip(t, rest, Wrap(x), "");
      case Paren(y) =>
        if y == x {
          assert DropRemark(ps, x) == DropRemark(ps[1..], x);
          var s := Wrap(x) + rest;
          assert s[..|Wrap(x)|] == Wrap(x);
          ReplaceFront(s, Wrap(x), "");
          assert s[|Wrap(x)|..] == rest;
        } else {
          ReplaceOtherRemark(x, y, rest);
        }
    }
  }

  lemma {:induction false} DropRemarkPlain(ps: seq<Piece>, x: string)
    ensures PlainText(DropRemark(ps, x)) == PlainText(ps)
  {
    if |ps| > 0 {
      DropRemarkPlain(ps[1..], x);
      var r := DropRemark(ps, x);
      if ps[0] != Paren(x) {
        assert r == [ps[0]] + DropRemark(ps[1..], x);
        assert r[1..] == DropRemark(ps[1..], x);
      } else {
        assert r == DropRemark(ps[1..], x);
        assert PlainText(ps) == "" + PlainText(ps[1..]);
      }
    }
  }

  lemma {:induction false} PlainRender(ps: seq<Piece>)
    requires forall i :: 0 <= i < |ps| ==> ps[i].Plain?
    ensures Render(ps) == PlainText(ps)
  {
    if |ps| > 0 {
      PlainRender(ps[1..]);
    }
  }

  /** A match of the pattern in a well-cut text. */
  predicate IsRemark(m: string)
  {
    |m| >= 2 && m[0] == '(' && m[|m| - 1] == ')' && InnerOk(m[1..|m| - 1])
  }

  /** Deleting a list of remarks that names every remark of the text leaves the plain text. */
  lemma {:induction false} DeleteAllRender(ps: seq<Piece>, ms: seq<string>)
    requires WellCut(ps)
    requires forall j :: 0 <= j < |ms| ==> IsRemark(ms[j])
    requires forall i :: 0 <= i < |ps| && ps[i].Paren? ==> Wrap(ps[i].inner) in ms
    ensures DeleteAll(Render(ps), ms) == PlainText(ps)
    decreases |ms|
  {
    if |ms| == 0 {
      PlainRender(ps);
    } else {
      var m := ms[0];
      var x := m[1..|m| - 1];
      assert m == Wrap(x);
      ReplaceRender(ps, x);
      var ps' := DropRemark(ps, x);
      DropRemarkWellCut(ps, x);
      DropRemarkCovered(ps, ms);
      DeleteAllRender(ps', ms[1..]);
      DropRemarkPlain(ps, x);
    }
  }

  lemma DropRemarkWellCut(ps: seq<Piece>, x: string)
    requires WellCut(ps)
    ensures WellCut(DropRemark(ps, x))
  {
    var ps' := DropRemark(ps, x);
    forall i | 0 <= i < |ps'|
      ensures if ps'[i].Plain? then FreeOf(ps'[i].text, '(') else InnerOk(ps'[i].inner)
    {
      var k :| 0 <= k < |ps| && ps[k] == ps'[i];
    }
  }

  /** Once the first remark of `ms` is deleted, the rest of `ms` names every remark left. */
  lemma DropRemarkCovered(ps: seq<Piece>, ms: seq<string>)
    requires |ms| > 0 && IsRemark(ms[0])
    requires forall i :: 0 <= i < |ps| && ps[i].Paren? ==> Wrap(ps[i].inner) in ms
    ensures var m := ms[0]; var ps' := DropRemark(ps, m[1..|m| - 1]);
      forall i :: 0 <= i < |ps'| && ps'[i].Paren? ==> Wrap(ps'[i].inner) in ms[1..]
  {
    var m := ms[0];
    var x := m[1..|m| - 1];
    assert m == Wrap(x);
    var ps' := DropRemark(ps, x);
    forall i | 0 <= i < |ps'| && ps'[i].Paren? ensures Wrap(ps'[i].inner) in ms[1..] {
      var k :| 0 <= k < |ps| && ps[k] == ps'[i];
      assert ps'[i].inner != x;
      assert Wrap(ps'[i].inner) != m by {
        assert Wrap(ps'[i].inner)[1..|Wrap(ps'[i].inner)| - 1] == ps'[i].inner;
      }
      assert ms == [m] + ms[1..];
    }
  }

  lemma {:induction false} ParenTextsRemarks(ps: seq<Piece>)
    requires WellCut(ps)
    ensures forall j :: 0 <= j < |ParenTexts(ps)| ==> IsRemark(ParenTexts(ps)[j])
    ensures forall i :: 0 <= i < |ps| && ps[i].Paren? ==> Wrap(ps[i].inner) in ParenTexts(ps)
  {
    if |ps| > 0 {
      WellCutTail(ps);
      ParenTextsRemarks(ps[1..]);
      if ps[0].Paren? {
        var w := Wrap(ps[0].inner);
        assert w[1..|w| - 1] == ps[0].inner;
      }
      forall i | 0 < i < |ps| && ps[i].Paren? ensures Wrap(ps[i].inner) in ParenTexts(ps) {
        assert ps[1..][i - 1] == ps[i];
      }
    }
  }

  /** `remove_parenthesis` keeps exactly the text outside the parentheses: every remark closed
      on its line disappears with its parentheses, the rest stays in place. */
  lemma {:induction false} WithoutParenthesisPlain(ps: seq<Piece>)
    requires WellCut(ps)
    ensures WithoutParenthesis(Render(ps)) == PlainText(ps)
  {
    ParenMatchesRender(ps);
    ParenTextsRemarks(ps);
    DeleteAllRender(ps, ParenTexts(ps));
  }

  /** A text without '(' is left as it is. */
  lemma WithoutParenthesisNone(s: string)
    requires FreeOf(s, '(')
    ensures WithoutParenthesis(s) == s
  {
    var ps := [Plain(s)];
    assert ps[1..] == [];
    assert s + "" == s;
    assert Render(ps) == s + Render(ps[1..]) == s;
    assert PlainText(ps) == s + PlainText(ps[1..]) == s;
    assert WellCut(ps);
    WithoutParenthesisPlain(ps);
  }

  lemma RenderCons(p: Piece, ps: seq<Piece>)
    ensures Render([p] + ps) == PieceText(p) + Render(ps)
    ensures PlainText([p] + ps) == (if p.Plain? then p.text else "") + PlainText(ps)
  {
    assert ([p] + ps)[1..] == ps;
  }

  /** Two remarks, each after a stretch of plain text, are deleted. */
  lemma WithoutTwoRemarks(a: string, x: string, c: string, y: string)
    requires FreeOf(a, '(') && FreeOf(c, '(') && InnerOk(x) && InnerOk(y)
    ensures WithoutParenthesis(a + Wrap(x) + c + Wrap(y)) == a + c
  {
    var pa, px, pc, py := Plain(a), Paren(x), Plain(c), Paren(y);
    var ps := [pa, px, pc, py];
    RenderCons(py, []);
    RenderCons(pc, [py]);
    RenderCons(px, [pc, py]);
    RenderCons(pa, [px, pc, py]);
    assert [pa] + [px, pc, py] == ps && [px] + [pc, py] == [px, pc, py];
    assert [pc] + [py] == [pc, py] && [py] + [] == [py];
    var wx, wy := Wrap(x), Wrap(y);
    assert Render(ps) == a + (wx + (c + (wy + "")));
    assert wy + "" == wy;
    AppendAssoc(a, wx, c + wy);
    AppendAssoc(a + wx, c, wy);
    assert PlainText(ps) == a + ("" + (c + ("" + "")));
    assert "" + (c + ("" + "")) == c;
    WithoutParenthesisPlain(ps);
  }

  /** 'Alice (forfatter), Bob (utgiver)' becomes 'Alice , Bob '. */
  lemma RemoveParenthesisExample(s: string)
    requires s == "Alice " + "(forfatter)" + ", Bob " + "(utgiver)"
    ensures WithoutParenthesis(s) == "Alice " + ", Bob "
  {
    assert Wrap("forfatter") == "(forfatter)" && Wrap("utgiver") == "(utgiver)";
    WithoutTwoRemarks("Alice ", "forfatter", ", Bob ", "utgiver");
  }

  // ---------------------------------------------------------------- the name pattern pipeline

  /** `match_text_name_regex`: the matches of the name pattern joined by ", ", or nothing when
      the pattern does not match. */
  function MatchTextNameRegex(pats: Patterns, authorText: string): Option<string>
  {
    var ms := pats.nameFindAll(authorText);
    if |ms| == 0 then None else Some(Join(", ", ms))
  }

  /** `split_author_string`: the pieces between binding words, commas and '&', stripped. */
  function SplitAuthorString(pats: Patterns, authorText: string): (r: seq<string>)
    ensures |r| == |SplitOnBindingWord(pats, authorText)|
  {
    Map(SplitOnBindingWord(pats, authorText), Strip)
  }

  /** Every piece is the stripped text between two separators: it neither starts nor ends with
      whitespace. */
  lemma SplitAuthorStringTrimmed(pats: Patterns, authorText: string)
    ensures forall i :: 0 <= i < |SplitAuthorString(pats, authorText)| ==>
              Trimmed(SplitAuthorString(pats, authorText)[i])
  {
    var pieces := SplitOnBindingWord(pats, authorText);
    forall i | 0 <= i < |pieces| ensures Trimmed(SplitAuthorString(pats, authorText)[i]) {
      StripEdges(pieces[i]);
    }
  }

  predicate Trimmed(s: string) { |s| > 0 ==> !IsSpace(s[0]) && !IsSpace(s[|s| - 1]) }

  predicate IsAsciiUpper(c: char) { 'A' <= c <= 'Z' }

  /** `\b[A-Z]{2,}\b` matches `s[i..j]`: two or more ASCII capitals with no word character on
      either side. */
  predicate CapitalRunAt(s: string, i: nat, j: nat)
  {
    i + 2 <= j <= |s| && (forall k :: i <= k < j ==> IsAsciiUpper(s[k]))
    && (i == 0 || IsNonWordChar(s[i - 1])) && (j == |s| || IsNonWordChar(s[j]))
  }

  /** `double_capital_letter_pattern().search(s)` finds a match. */
  predicate HasCapitalRun(s: string)
  {
    exists i, j | 0 <= i <= j <= |s| :: CapitalRunAt(s, i, j)
  }

  predicate NoCapitalRun(s: string) { !HasCapitalRun(s) }

  /** `remove_multi_capital_letter`: the names holding such a run are dropped, the others kept
      in order. */
  function RemoveMultiCapitalLetter(authors: seq<string>): (r: seq<string>)
    ensures |r| <= |authors|
    ensures forall x :: x in r <==> x in authors && !HasCapitalRun(x)
  {
    FilterMembers(authors, NoCapitalRun);
    Filter(authors, NoCapitalRun)
  }

  /** A name in which no two ASCII capitals are adjacent never holds such a run. */
  lemma NoAdjacentCapitals(s: string)
    requires forall k :: 0 <= k < |s| - 1 ==> !(IsAsciiUpper(s[k]) && IsAsciiUpper(s[k + 1]))
    ensures !HasCapitalRun(s)
  {
    forall i, j | 0 <= i <= j <= |s| ensures !CapitalRunAt(s, i, j) {
      if i + 2 <= j { assert !(IsAsciiUpper(s[i]) && IsAsciiUpper(s[i + 1])); }
    }
  }

  /** A word of two or more ASCII capitals standing on its own (an acronym such as 'NAV') is
      found wherever it occurs. */
  lemma CapitalWordFound(a: string, w: string, b: string)
    requires |w| >= 2 && forall k :: 0 <= k < |w| ==> IsAsciiUpper(w[k])
    requires |a| == 0 || IsNonWordChar(a[|a| - 1])
    requires |b| == 0 || IsNonWordChar(b[0])
    ensures HasCapitalRun(a + w + b)
  {
    var s := a + w + b;
    forall k | |a| <= k < |a| + |w| ensures IsAsciiUpper(s[k]) { assert s[k] == w[k - |a|]; }
    if |a| > 0 { assert s[|a| - 1] == a[|a| - 1]; }
    if |b| > 0 { assert s[|a| + |w|] == b[0]; }
    assert CapitalRunAt(s, |a|, |a| + |w|);
  }

  function Same(x: string): string { x }

  /** `remove_duplicate_names`: every name once. */
  function RemoveDuplicateNames(authors: seq<string>): (r: seq<string>)
    ensures forall x :: x in r <==> x in authors
    ensures forall i, j :: 0 <= i < j < |r| ==> r[i] != r[j]
  {
    FirstOccurrencesOfNames(authors);
    FirstOccurrences(authors, Same)
  }

  lemma FirstOccurrencesOfNames(authors: seq<string>)
    ensures forall x :: x in FirstOccurrences(authors, Same) <==> x in authors
    ensures forall i, j :: 0 <= i < j < |FirstOccurrences(authors, Same)| ==>
              FirstOccurrences(authors, Same)[i] != FirstOccurrences(authors, Same)[j]
  {
    var r := FirstOccurrences(authors, Same);
    FirstOccurrencesKeys(authors, Same);
    FirstOccurrencesDistinct(authors, Same);
    forall x | x in authors ensures x in r {
      var i :| 0 <= i < |authors| && authors[i] == x;
      assert Same(authors[i]) in KeySet(authors, Same);
      var k :| 0 <= k < |r| && Same(r[k]) == x;
    }
  }

  /** A list without repeats comes through unchanged. */
  lemma RemoveDuplicateNamesDistinct(authors: seq<string>)
    requires forall i, j :: 0 <= i < j < |authors| ==> authors[i] != authors[j]
    ensures RemoveDuplicateNames(authors) == authors
  {
    FirstOccurrencesNoRepeats(authors, Same);
  }

  /** `get_author_names`. */
  function GetAuthorNames(pats: Patterns, textBlock: string): Option<seq<string>>
  {
    match MatchTextNameRegex(pats, WithoutParenthesis(textBlock))
    case None => None
    case Some(matched) =>
      if matched == "" then None
      else Some(RemoveDuplicateNames(RemoveMultiCapitalLetter(SplitAuthorString(pats, matched))))
  }

  /** The matches of the name pattern outside the parentheses, joined by ", ". */
  function NameMatches(pats: Patterns, textBlock: string): string
  {
    Join(", ", pats.nameFindAll(WithoutParenthesis(textBlock)))
  }

  /** `get_author_names` finds names exactly when the name pattern matches something outside the
      parentheses (an empty match list and matches joining to "" both give None).  The names are
      then the stripped pieces of the joined matches that hold no run of capitals, each once. */
  lemma GetAuthorNamesSpec(pats: Patterns, textBlock: string)
    ensures GetAuthorNames(pats, textBlock).None? <==> NameMatches(pats, textBlock) == ""
    ensures GetAuthorNames(pats, textBlock).Some? ==>
              forall x :: x in GetAuthorNames(pats, textBlock).value <==>
                x in SplitAuthorString(pats, NameMatches(pats, textBlock)) && !HasCapitalRun(x)
    ensures GetAuthorNames(pats, textBlock).Some? ==>
              forall x :: x in GetAuthorNames(pats, textBlock).value ==> Trimmed(x)
    ensures GetAuthorNames(pats, textBlock).Some? ==>
              var names := GetAuthorNames(pats, textBlock).value;
              forall i, j :: 0 <= i < j < |names| ==> names[i] != names[j]
  {
    var m := NameMatches(pats, textBlock);
    SplitAuthorStringTrimmed(pats, m);
  }

  /** Names the pattern finds one by one, in a text without parentheses, come back as they are
      when the binding-word split of their joined form gives them back and none of them holds a
      run of capitals or repeats. */
  lemma GetAuthorNamesOf(pats: Patterns, textBlock: string, names: seq<string>)
    requires FreeOf(textBlock, '(')
    requires pats.nameFindAll(textBlock) == names && |names| > 0 && names[0] != ""
    requires SplitAuthorString(pats, Join(", ", names)) == names
    requires forall i :: 0 <= i < |names| ==> !HasCapitalRun(names[i])
    requires forall i, j :: 0 <= i < j < |names| ==> names[i] != names[j]
    ensures GetAuthorNames(pats, textBlock) == Some(names)
  {
    WithoutParenthesisNone(textBlock);
    var m := Join(", ", names);
    JoinStartsWith(", ", names);
    assert MatchTextNameRegex(pats, WithoutParenthesis(textBlock)) == Some(m);
    assert m != "";
    FilterAll(names, NoCapitalRun);
    assert RemoveMultiCapitalLetter(names) == names;
    RemoveDuplicateNamesDistinct(names);
  }

  lemma JoinStartsWith(sep: string, parts: seq<string>)
    requires |parts| > 0
    ensures |Join(sep, parts)| >= |parts[0]| && Join(sep, parts)[..|parts[0]|] == parts[0]
  {
  }

  /** The joined form of four names. */
  lemma JoinFour(a: string, b: string, c: string, d: string)
    ensures Join(", ", [a, b, c, d]) == a + ", " + b + ", " + c + ", " + d
  {
    assert [a, b, c, d][1..] == [b, c, d] && [b, c, d][1..] == [c, d] && [c, d][1..] == [d];
    assert Join(", ", [c, d]) == c + ", " + d;
  }

  /** Four trimmed, distinct names without parentheses or runs of capitals, found one by one in
      a text that holds no parenthesis, come back as they are when their joined form splits into
      the names behind single spaces. */
  lemma GetAuthorNamesFour(pats: Patterns, s: string, a: string, b: string, c: string, d: string)
    requires FreeOf(s, '(')
    requires CleanName(a) && CleanName(b) && CleanName(c) && CleanName(d)
    requires a[0] != b[0] && a[0] != c[0] && a[0] != d[0] && b[0] != c[0] && b[0] != d[0] && c[0] != d[0]
    requires pats.nameFindAll(s) == [a, b, c, d]
    requires pats.bindingWordSplit(a + ", " + b + ", " + c + ", " + d) == [a, " " + b, " " + c, " " + d]
    ensures GetAuthorNames(pats, s) == Some([a, b, c, d])
  {
    var names := [a, b, c, d];
    JoinFour(a, b, c, d);
    StripTrimmed(a);
    StripTrimmed(b);
    StripTrimmed(c);
    StripTrimmed(d);
    var m := Join(", ", names);
    var pieces := SplitOnBindingWord(pats, m);
    assert pieces == [a, " " + b, " " + c, " " + d];
    assert pieces[0] == a && pieces[1] == " " + b && pieces[2] == " " + c && pieces[3] == " " + d;
    MapFour(pieces, Strip);
    assert SplitAuthorString(pats, m) == [Strip(a), Strip(" " + b), Strip(" " + c), Strip(" " + d)];
    FourNames(a, b, c, d);
    GetAuthorNamesOf(pats, s, names);
  }

  lemma MapFour<T, U>(s: seq<T>, f: T -> U)
    requires |s| == 4
    ensures Map(s, f) == [f(s[0]), f(s[1]), f(s[2]), f(s[3])]
  {
  }

  lemma FourNames(a: string, b: string, c: string, d: string)
    requires CleanName(a) && CleanName(b) && CleanName(c) && CleanName(d)
    requires a[0] != b[0] && a[0] != c[0] && a[0] != d[0] && b[0] != c[0] && b[0] != d[0] && c[0] != d[0]
    ensures forall i :: 0 <= i < |[a, b, c, d]| ==> !HasCapitalRun([a, b, c, d][i])
    ensures forall i, j :: 0 <= i < j < |[a, b, c, d]| ==> [a, b, c, d][i] != [a, b, c, d][j]
  {
    var names := [a, b, c, d];
    forall i | 0 <= i < 4 ensures CleanName(names[i]) {
      if i == 0 { assert names[i] == a; }
      else if i == 1 { assert names[i] == b; }
      else if i == 2 { assert names[i] == c; }
      else { assert names[i] == d; }
    }
    forall i, j | 0 <= i < j < 4 ensures names[i][0] != names[j][0] {
      if i == 0 { assert names[i] == a; }
      else if i == 1 { assert names[i] == b; }
      else { assert names[i] == c; }
      if j == 1 { assert names[j] == b; }
      else if j == 2 { assert names[j] == c; }
      else { assert names[j] == d; }
    }
  }

  predicate CleanName(x: string) { |x| > 0 && !IsSpace(x[0]) && !IsSpace(x[|x| - 1]) && !HasCapitalRun(x) }

  lemma FreeOfConcat(x: string, y: string, c: char)
    requires FreeOf(x, c) && FreeOf(y, c)
    ensures FreeOf(x + y, c)
  {
  }

  /** Each of the four example names is clean and holds no '('. */
  lemma FirstNameClean(x: string)
    requires x == "Anne Mette Ødegård"
    ensures CleanName(x) && FreeOf(x, '(')
  {
    NoAdjacentCapitals(x);
  }

  lemma SecondNameClean(x: string)
    requires x == "Rolf K. Andersen"
    ensures CleanName(x) && FreeOf(x, '(')
  {
    NoAdjacentCapitals(x);
  }

  lemma ThirdNameClean(x: string)
    requires x == "Bjorn Dapi"
    ensures CleanName(x) && FreeOf(x, '(')
  {
    NoAdjacentCapitals(x);
  }

  lemma FourthNameClean(x: string)
    requires x == "Cecilie Aagestad"
    ensures CleanName(x) && FreeOf(x, '(')
  {
    NoAdjacentCapitals(x);
  }

  lemma ExampleNamesClean(a: string, b: string, c: string, d: string)
    requires a == "Anne Mette Ødegård" && b == "Rolf K. Andersen" && c == "Bjorn Dapi" && d == "Cecilie Aagestad"
    ensures CleanName(a) && CleanName(b) && CleanName(c) && CleanName(d)
    ensures a[0] != b[0] && a[0] != c[0] && a[0] != d[0] && b[0] != c[0] && b[0] != d[0] && c[0] != d[0]
    ensures FreeOf(a + ", " + b + ", " + c + " og " + d, '(')
  {
    FirstNameClean(a);
    SecondNameClean(b);
    ThirdNameClean(c);
    FourthNameClean(d);
    assert FreeOf(", ", '(') && FreeOf(" og ", '(');
    FreeOfConcat(a, ", ", '(');
    FreeOfConcat(a + ", ", b, '(');
    FreeOfConcat(a + ", " + b, ", ", '(');
    FreeOfConcat(a + ", " + b + ", ", c, '(');
    FreeOfConcat(a + ", " + b + ", " + c, " og ", '(');
    FreeOfConcat(a + ", " + b + ", " + c + " og ", d, '(');
  }

  /** The four authors of 'Anne Mette Ødegård, Rolf K. Andersen, Bjorn Dapi og Cecilie Aagestad',
      given that the name pattern finds them one by one ('og' is lower-case and so is no part of a
      name) and that their joined form splits at the commas. */
  lemma GetAuthorNamesExample(pats: Patterns, s: string, a: string, b: string, c: string, d: string)
    requires a == "Anne Mette Ødegård" && b == "Rolf K. Andersen" && c == "Bjorn Dapi" && d == "Cecilie Aagestad"
    requires s == a + ", " + b + ", " + c + " og " + d
    requires pats.nameFindAll(s) == [a, b, c, d]
    requires pats.bindingWordSplit(a + ", " + b + ", " + c + ", " + d) == [a, " " + b, " " + c, " " + d]
    ensures GetAuthorNames(pats, s) == Some([a, b, c, d])
  {
    ExampleNamesClean(a, b, c, d);
    GetAuthorNamesFour(pats, s, a, b, c, d);
  }

  // ---------------------------------------------------------------- tests on a block

  /** `remove_non_author_name`: a text naming a photographer (the photo label) is no author name. */
  function RemoveNonAuthorName(pats: Patterns, name: string): (r: Option<string>)
    ensures r.None? <==> HasNonAuthorKeywords(pats, name)
    ensures r.Some? ==> r.value == name
  {
    if HasNonAuthorKeywords(pats, name) then None else Some(name)
  }

  /** The block as `is_probable_name_block` compares it: remarks in parentheses removed, then the
      labels, binding words and punctuation. */
  function CleanNameBlock(pats: Patterns, textBlock: string): string
  {
    SubstituteSpecialCharAndBinding(pats, WithoutParenthesis(textBlock))
  }

  /** `is_probable_name_block`: the matches of the name pattern cover as many characters as the
      cleaned block holds. */
  predicate IsProbableNameBlock(pats: Patterns, textBlock: string)
  {
    var cleaned := CleanNameBlock(pats, textBlock);
    |cleaned| == |Join("", pats.nameFindAll(cleaned))|
  }

  /** A block that the name pattern matches as one whole is a probable name block. */
  lemma ProbableWhenWholeMatch(pats: Patterns, textBlock: string)
    requires pats.nameFindAll(CleanNameBlock(pats, textBlock)) == [CleanNameBlock(pats, textBlock)]
    ensures IsProbableNameBlock(pats, textBlock)
  {
  }

  /** A block in which the name pattern finds nothing is a probable name block only when
      nothing is left of it after cleaning. */
  lemma ProbableWithoutMatch(pats: Patterns, textBlock: string)
    requires pats.nameFindAll(CleanNameBlock(pats, textBlock)) == []
    ensures IsProbableNameBlock(pats, textBlock) <==> CleanNameBlock(pats, textBlock) == ""
  {
  }

  /** Remarks in parentheses do not change the verdict: the block is judged by its text outside
      them. */
  lemma ProbableIgnoresRemarks(pats: Patterns, a: string, x: string, c: string, y: string)
    requires FreeOf(a, '(') && FreeOf(c, '(') && InnerOk(x) && InnerOk(y)
    ensures IsProbableNameBlock(pats, a + Wrap(x) + c + Wrap(y)) == IsProbableNameBlock(pats, a + c)
  {
    WithoutTwoRemarks(a, x, c, y);
    FreeOfConcat(a, c, '(');
    WithoutParenthesisNone(a + c);
  }

  /** `name_exists_in_title`: the name, normalised and lower-cased, occurs in the title,
      normalised and lower-cased.  This is a substring test, not a test on whole words. */
  predicate NameExistsInTitle(title: string, name: string)
  {
    Contains(Lower(SubstituteNonAlphanumeric(title)), Lower(SubstituteNonAlphanumeric(name)))
  }

  /** The name is found wherever its normalised form stands in the normalised title. */
  lemma NameExistsInTitleAt(title: string, name: string, before: string, after: string)
    requires Lower(SubstituteNonAlphanumeric(title)) == before + Lower(SubstituteNonAlphanumeric(name)) + after
    ensures NameExistsInTitle(title, name)
  {
    var t := Lower(SubstituteNonAlphanumeric(title));
    var n := Lower(SubstituteNonAlphanumeric(name));
    assert t[|before|..|before| + |n|] == n;
    assert OccursAt(t, n, |before|);
    ContainsAt(t, n);
  }

  /** Every name occurs in a title that is the name itself. */
  lemma NameExistsInOwnTitle(name: string)
    ensures NameExistsInTitle(name, name)
  {
    var n := Lower(SubstituteNonAlphanumeric(name));
    assert n == "" + n + "";
    NameExistsInTitleAt(name, name, "", "");
  }

  /** The test ignores case on either side. */
  lemma NameExistsInTitleCaseBlind(title: string, name: string)
    ensures NameExistsInTitle(Lower(title), Lower(name)) == NameExistsInTitle(title, name)
  {
    SubstituteNonAlphanumericLower(title);
    SubstituteNonAlphanumericLower(name);
    LowerIdempotent(SubstituteNonAlphanumeric(title));
    LowerIdempotent(SubstituteNonAlphanumeric(name));
  }

  // ---------------------------------------------------------------- first and last name

  /** The first name followed by the last name, one space between them. */
  function FullName(firstname: string, lastname: string): string
  {
    if firstname == "" then lastname else firstname + " " + lastname
  }

  /** `create_author_dict`: the last word of the name is the last name and the words before it,
      joined by single spaces, the first name; a name without any word raises IndexError. */
  function CreateAuthorDict(name: string): (r: Result<Value>)
    ensures r.Err? <==> |SplitWs(name)| == 0
    ensures r.Ok? ==> r.value.Person? && |r.value.lastname| > 0 && NoSpace(r.value.lastname)
    ensures r.Ok? ==> FullName(r.value.firstname, r.value.lastname) == Join(" ", SplitWs(name))
  {
    var words := SplitWs(name);
    if |words| == 0 then Err("IndexError")
    else
      var n := |words|;
      SplitWsTokens(name);
      assert words[n - 1] in words;
      assert words == words[..n - 1] + [words[n - 1]];
      JoinSnoc(" ", words[..n - 1], words[n - 1]);
      assert Join(" ", words[..n - 1]) == "" ==> n == 1 by {
        if n > 1 { JoinStartsWith(" ", words[..n - 1]); assert words[..n - 1][0] == words[0]; assert words[0] in words; }
      }
      Ok(Person(Join(" ", words[..n - 1]), words[n - 1]))
  }

  /** Words split back into their first names and last name. */
  lemma CreateAuthorDictOfWords(words: seq<string>)
    requires |words| > 0
    requires forall i :: 0 <= i < |words| ==> |words[i]| > 0 && NoSpace(words[i])
    ensures CreateAuthorDict(Join(" ", words)) == Ok(Person(Join(" ", words[..|words| - 1]), words[|words| - 1]))
  {
    SplitWsJoin(words);
  }

  /** A name of whitespace alone raises IndexError. */
  lemma CreateAuthorDictBlank(name: string)
    requires forall i :: 0 <= i < |name| ==> IsSpace(name[i])
    ensures CreateAuthorDict(name).Err?
  {
    SplitWsBlank(name);
  }

  /** 'Anne Mette Ødegård' has the first name 'Anne Mette'. */
  lemma CreateAuthorDictThreeWordExample(a: string)
    requires a == "Anne Mette Ødegård"
    ensures CreateAuthorDict(a) == Ok(Person("Anne Mette", "Ødegård"))
  {
    var x, y, z := "Anne", "Mette", "Ødegård";
    assert NoSpace(x) && NoSpace(y) && NoSpace(z);
    assert a == x + " " + y + " " + z;
    assert "Anne Mette" == x + " " + y;
    ThreeWords(x, y, z);
  }

  /** 'Rolf K. Andersen' keeps the initial in the first name. */
  lemma CreateAuthorDictInitialExample(b: string)
    requires b == "Rolf K. Andersen"
    ensures CreateAuthorDict(b) == Ok(Person("Rolf K.", "Andersen"))
  {
    var x, y, z := "Rolf", "K.", "Andersen";
    assert NoSpace(x) && NoSpace(y) && NoSpace(z);
    assert b == x + " " + y + " " + z;
    assert "Rolf K." == x + " " + y;
    ThreeWords(x, y, z);
  }

  /** 'Bjørn Dapi' splits into 'Bjørn' and 'Dapi'. */
  lemma CreateAuthorDictTwoWordExample(c: string)
    requires c == "Bjørn Dapi"
    ensures CreateAuthorDict(c) == Ok(Person("Bjørn", "Dapi"))
  {
    var x, y := "Bjørn", "Dapi";
    assert NoSpace(x) && NoSpace(y);
    assert c == x + " " + y;
    TwoWords(x, y);
  }

  lemma TwoWords(x: string, y: string)
    requires |x| > 0 && NoSpace(x) && |y| > 0 && NoSpace(y)
    ensures CreateAuthorDict(x + " " + y) == Ok(Person(x, y))
  {
    var ws := [x, y];
    assert ws[1..] == [y] && ws[..1] == [x];
    assert Join(" ", ws) == x + " " + y;
    CreateAuthorDictOfWords(ws);
  }

  lemma ThreeWords(x: string, y: string, z: string)
    requires |x| > 0 && NoSpace(x) && |y| > 0 && NoSpace(y) && |z| > 0 && NoSpace(z)
    ensures CreateAuthorDict(x + " " + y + " " + z) == Ok(Person(x + " " + y, z))
  {
    var ws := [x, y, z];
    assert ws[1..] == [y, z] && [y, z][1..] == [z] && ws[..2] == [x, y] && [x, y][1..] == [y];
    assert Join(" ", [y, z]) == y + " " + z;
    assert Join(" ", ws) == x + " " + (y + " " + z);
    assert Join(" ", [x, y]) == x + " " + y;
    assert x + " " + (y + " " + z) == x + " " + y + " " + z;
    CreateAuthorDictOfWords(ws);
    assert ws[|ws| - 1] == z;
  }

  // ---------------------------------------------------------------- spaced capitals

  /** Every word of the text is one upper-case letter (a text of whitespace alone qualifies). */
  predicate AllCapsSpaced(textBlock: string)
  {
    forall i :: 0 <= i < |SplitWs(textBlock)| ==> |SplitWs(textBlock)[i]| == 1 && IsUpper(SplitWs(textBlock)[i])
  }

  /** `is_all_caps_spaced`: a word-by-word scan that stops at the first word that is not a
      single capital. */
  method IsAllCapsSpaced(textBlock: string) returns (r: bool)
    ensures r == AllCapsSpaced(textBlock)
  {
    var letters := SplitWs(textBlock);
    var i := 0;
    while i < |letters|
      invariant 0 <= i <= |letters|
      invariant forall k :: 0 <= k < i ==> |letters[k]| == 1 && IsUpper(letters[k])
    {
      if |letters[i]| != 1 || !IsUpper(letters[i]) {
        return false;
      }
      i := i + 1;
    }
    return true;
  }

  lemma UpperLetter(c: char)
    requires IsUpperChar(c)
    ensures IsUpper([c]) && NoSpace([c])
  {
    assert [c][1..] == [];
  }

  /** Single capitals separated by single spaces, as in 'R A P P O R T', are all caps spaced. */
  lemma AllCapsSpacedLetters(letters: seq<string>)
    requires forall i :: 0 <= i < |letters| ==> |letters[i]| == 1 && IsUpperChar(letters[i][0])
    ensures AllCapsSpaced(Join(" ", letters))
  {
    forall i | 0 <= i < |letters| ensures |letters[i]| > 0 && NoSpace(letters[i]) && IsUpper(letters[i]) {
      UpperLetter(letters[i][0]);
      assert letters[i] == [letters[i][0]];
    }
    SplitWsJoin(letters);
  }

  /** A text whose first word is longer than one character is not, as 'John Doe' shows. */
  lemma AllCapsSpacedLongWord(a: string, sep: char, b: string)
    requires |a| > 1 && |b| > 0 && NoSpace(a) && NoSpace(b) && IsSpace(sep)
    ensures !AllCapsSpaced(a + [sep] + b)
  {
    SplitWsPair(a, sep, b);
    assert SplitWs(a + [sep] + b)[0] == a;
  }

  lemma AllCapsSpacedExamples(john: string, rapport: string)
    requires john == "John Doe" && rapport == "R A P P O R T"
    ensures !AllCapsSpaced(john) && AllCapsSpaced(rapport)
  {
    assert john == "John" + [' '] + "Doe";
    AllCapsSpacedLongWord("John", ' ', "Doe");
    var letters := ["R", "A", "P", "P", "O", "R", "T"];
    assert rapport == Join(" ", letters) by { SevenLetters(letters); }
    AllCapsSpacedLetters(letters);
  }

  lemma SevenLetters(letters: seq<string>)
    requires letters == ["R", "A", "P", "P", "O", "R", "T"]
    ensures Join(" ", letters) == "R A P P O R T"
  {
    var l1, l2, l3, l4, l5, l6 := letters[1..], letters[2..], letters[3..], letters[4..], letters[5..], letters[6..];
    assert l1[1..] == l2 && l2[1..] == l3 && l3[1..] == l4 && l4[1..] == l5 && l5[1..] == l6;
    assert Join(" ", l6) == "T";
    assert Join(" ", l5) == "R T";
    assert Join(" ", l4) == "O R T";
    assert Join(" ", l3) == "P O R T";
    assert Join(" ", l2) == "P P O R T";
    assert Join(" ", l1) == "A P P O R T";
  }

  // ---------------------------------------------------------------- concatenating name blocks

  /** A block `concat_text_blocks_to_str` keeps: a probable name block that names no
      photographer and is not empty. */
  predicate IsNameBlock(pats: Patterns, text: string)
  {
    IsProbableNameBlock(pats, text) && RemoveNonAuthorName(pats, text).Some? && text != ""
  }

  function NameBlockTest(pats: Patterns): string -> bool
  {
    (text: string) => IsNameBlock(pats, text)
  }

  /** The texts of the blocks that pass `keep`, in page order. */
  function KeptTexts(keep: string -> bool, page: seq<TextBlock>): (r: seq<string>)
    ensures |r| <= |page|
    ensures forall i :: 0 <= i < |r| ==> keep(r[i])
  {
    if |page| == 0 then []
    else
      var b := page[|page| - 1];
      KeptTexts(keep, page[..|page| - 1]) + (if keep(b.text) then [b.text] else [])
  }

  /** Each text preceded by ", ". */
  function Prefixed(texts: seq<string>): string
  {
    if |texts| == 0 then "" else Prefixed(texts[..|texts| - 1]) + ", " + texts[|texts| - 1]
  }

  /** `concat_text_blocks_to_str`. */
  method ConcatTextBlocks(pats: Patterns, page: seq<TextBlock>) returns (rawText: string)
    ensures rawText == Prefixed(KeptTexts(NameBlockTest(pats), page))
  {
    var keep := NameBlockTest(pats);
    rawText := "";
    var i := 0;
    while i < |page|
      invariant 0 <= i <= |page|
      invariant rawText == Prefixed(KeptTexts(keep, page[..i]))
    {
      KeptTextsStep(keep, page, i);
      if keep(page[i].text) {
        rawText := rawText + ", " + page[i].text;
      }
      i := i + 1;
    }
    assert page[..i] == page;
  }

  lemma KeptTextsStep(keep: string -> bool, page: seq<TextBlock>, i: nat)
    requires i < |page|
    ensures KeptTexts(keep, page[..i + 1])
         == KeptTexts(keep, page[..i]) + (if keep(page[i].text) then [page[i].text] else [])
    ensures Prefixed(KeptTexts(keep, page[..i + 1]))
         == Prefixed(KeptTexts(keep, page[..i])) + (if keep(page[i].text) then ", " + page[i].text else "")
  {
    TakeSnoc(page, i);
    var ts := KeptTexts(keep, page[..i]);
    assert page[..i + 1][..i] == page[..i];
    assert page[..i + 1][i] == page[i];
    if !keep(page[i].text) {
      assert KeptTexts(keep, page[..i + 1]) == ts + [];
      assert ts + [] == ts;
      assert Prefixed(ts) + "" == Prefixed(ts);
    } else {
      var t := page[i].text;
      assert KeptTexts(keep, page[..i + 1]) == ts + [t];
      assert (ts + [t])[..|ts|] == ts;
      assert Prefixed(ts + [t]) == Prefixed(ts) + ", " + t;
      assert Prefixed(ts) + ", " + t == Prefixed(ts) + (", " + t);
    }
  }

  /** The concatenation is ", " before the kept texts joined by ", ", and empty when no block
      is kept: what `get_author_names` then reads the names from. */
  lemma {:induction false} PrefixedJoin(texts: seq<string>)
    ensures Prefixed(texts) == if |texts| == 0 then "" else ", " + Join(", ", texts)
  {
    if |texts| > 0 {
      var init := texts[..|texts| - 1];
      PrefixedJoin(init);
      assert texts == init + [texts[|texts| - 1]];
      JoinSnoc(", ", init, texts[|texts| - 1]);
    }
  }

  /** No block is kept exactly when no block of the page passes the test. */
  lemma {:induction false} KeptTextsEmpty(keep: string -> bool, page: seq<TextBlock>)
    ensures KeptTexts(keep, page) == [] <==> forall i :: 0 <= i < |page| ==> !keep(page[i].text)
  {
    if |page| > 0 {
      var init := page[..|page| - 1];
      KeptTextsEmpty(keep, init);
      assert forall i :: 0 <= i < |init| ==> init[i] == page[i];
    }
  }
}
